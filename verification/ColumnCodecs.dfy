/** The column codecs of the second update format: encoders that gather runs, and
    decoders that give back what was written. */
module ColumnCodecs {
  import opened VarInts
  import opened ColumnRuns

  // ---------------------------------------------------------------- one run

  /** The pending run is written. */
  method WriteRun(f: Framing, buf: seq<Byte>, r: Run) returns (out: seq<Byte>)
    requires Fits(f, r)
    ensures out == buf + RunBytes(f, r)
    ensures f.Plain? && r.count == 1 ==> out == buf + VarInt(r.value, false)
    ensures f.Plain? && r.count > 1 ==> out == buf + VarInt(r.value, true) + VarUint(r.count - 2)
    ensures f.Difference? && r.count == 1 ==> var e: int := 2 * r.value; out == buf + VarInt(if e < 0 then 0 - e else e, e < 0)
    ensures f.Difference? && r.count > 1 ==> var e: int := 2 * r.value + 1; out == buf + VarInt(if e < 0 then 0 - e else e, e < 0) + VarUint(r.count - 2)
  {
    out := AppendVarIntMag(buf, Magnitude(f, r), Sign(f, r));
    if r.count > 1 {
      out := AppendVarUint(out, r.count - 2);
      Associate(buf, VarInt(Magnitude(f, r), Sign(f, r)), VarUint(r.count - 2));
    }
  }

  lemma {:induction false} Associate(a: seq<Byte>, b: seq<Byte>, c: seq<Byte>)
    ensures (a + b) + c == a + (b + c)
  {
  }

  /** What the head of a run says: the value, and whether a count follows. */
  function Unframed(f: Framing, mag: nat, negative: bool): (int, bool) {
    match f
    case Plain => (mag, negative)
    case Difference => var e: int := if negative then 0 - mag else mag; (e / 2, e % 2 == 1)
  }

  lemma {:induction false} UnframedIs(f: Framing, r: Run)
    requires Fits(f, r)
    ensures Unframed(f, Magnitude(f, r), Sign(f, r)) == (r.value, r.count > 1) && Magnitude(f, r) < Max64
  {
  }

  /** What a sign and a magnitude say about a run: its value, and whether a count follows. */
  ghost predicate HeadSays(f: Framing, mag: nat, negative: bool, value: int, counted: bool) {
    match f
    case Plain => value == mag && counted == negative
    case Difference =>
      var e: int := if negative then 0 - mag else mag;
      mag < 0x8000_0000_0000_0000 && e == 2 * value + if counted then 1 else 0
  }

  /** The bytes begin with a run that is not too long. */
  ghost predicate RunSays(f: Framing, buf: seq<Byte>, r: Run, rest: seq<Byte>) {
    exists mag: nat, negative: bool, mid: seq<Byte> :: RunSaysBy(f, buf, r, rest, mag, negative, mid)
  }

  ghost predicate RunSaysBy(f: Framing, buf: seq<Byte>, r: Run, rest: seq<Byte>, mag: nat, negative: bool, mid: seq<Byte>) {
    && SaysSigned(buf, mag, negative, mid) && HeadSays(f, mag, negative, r.value, r.count != 1)
    && if r.count == 1 then rest == mid else 2 <= r.count <= 0x7fff_ffff && Says(mid, 0, 0, 10, r.count - 2, rest)
  }

  ghost predicate NoRun(f: Framing, buf: seq<Byte>) {
    forall r, rest {:trigger RunSays(f, buf, r, rest)} :: !RunSays(f, buf, r, rest)
  }

  lemma {:induction false} NoHeadNoRun(f: Framing, buf: seq<Byte>)
    requires NoneSigned(buf)
    ensures NoRun(f, buf)
  {
  }

  lemma {:induction false} OnlyHead(f: Framing, buf: seq<Byte>, r: Run, rest: seq<Byte>, mag: nat, negative: bool, mid: seq<Byte>)
    requires SaysSigned(buf, mag, negative, mid) && RunSays(f, buf, r, rest)
    ensures RunSaysBy(f, buf, r, rest, mag, negative, mid)
  {
    var m: nat, s: bool, t: seq<Byte> :| RunSaysBy(f, buf, r, rest, m, s, t);
    SaysSignedOnce(buf, mag, negative, mid, m, s, t);
  }

  /** A difference beyond 63 bits. */
  lemma {:induction false} TooFar(buf: seq<Byte>, mag: nat, negative: bool, mid: seq<Byte>)
    requires SaysSigned(buf, mag, negative, mid) && mag >= 0x8000_0000_0000_0000
    ensures NoRun(Difference, buf)
  {
    forall r, rest ensures !RunSays(Difference, buf, r, rest) {
      if RunSays(Difference, buf, r, rest) { OnlyHead(Difference, buf, r, rest, mag, negative, mid); }
    }
  }

  /** A count that cannot be read, or is too large. */
  lemma {:induction false} NoCount(f: Framing, buf: seq<Byte>, mag: nat, negative: bool, mid: seq<Byte>)
    requires SaysSigned(buf, mag, negative, mid) && Unframed(f, mag, negative).1
    requires forall n: nat, rest {:trigger Says(mid, 0, 0, 10, n, rest)} :: Says(mid, 0, 0, 10, n, rest) ==> n > 0x7fff_fffd
    ensures NoRun(f, buf)
  {
    forall r, rest ensures !RunSays(f, buf, r, rest) {
      if RunSays(f, buf, r, rest) { OnlyHead(f, buf, r, rest, mag, negative, mid); }
    }
  }

  lemma {:induction false} CountTooLarge(mid: seq<Byte>, n: nat, rest: seq<Byte>)
    requires Says(mid, 0, 0, 10, n, rest) && n > 0x7fff_fffd
    ensures forall m: nat, t {:trigger Says(mid, 0, 0, 10, m, t)} :: Says(mid, 0, 0, 10, m, t) ==> m > 0x7fff_fffd
  {
    forall m: nat, t | Says(mid, 0, 0, 10, m, t) ensures m > 0x7fff_fffd { SaysOnce(mid, 0, 0, 10, n, rest, m, t); }
  }

  /** The next run is read; a difference beyond 63 bits or a run that is too long is refused. */
  method ReadRun(f: Framing, buf: seq<Byte>, ghost r: Run, ghost tail: seq<Byte>) returns (run: Result<Run>, rest: seq<Byte>)
    ensures Fits(f, r) && Short(r) && buf == RunBytes(f, r) + tail ==> run == Ok(r) && rest == tail
    ensures (buf == [] ==> run.Failed?) && (run.Ok? ==> 0 < run.value.count <= MaxRun)
    ensures if run.Ok? then RunSays(f, buf, run.value, rest) else NoRun(f, buf)
  {
    ghost var good := Fits(f, r) && Short(r) && buf == RunBytes(f, r) + tail;
    ghost var mag, more := 0, tail;
    if good { mag, more := HeadOf(f, buf, r, tail); }
    var head;
    head, rest := ReadVarIntSigned(buf, mag, Sign(f, r), more);
    if head.Failed? {
      NoHeadNoRun(f, buf);
      return Failed, rest;
    }
    run, rest := ReadRest(f, head.value.0, head.value.1, rest, buf, r, tail, good);
  }

  /** A run that was written, at its head. */
  lemma {:induction false} HeadOf(f: Framing, buf: seq<Byte>, r: Run, tail: seq<Byte>) returns (mag: nat, more: seq<Byte>)
    requires Fits(f, r) && buf == RunBytes(f, r) + tail
    ensures mag == Magnitude(f, r) && mag < Max64 && more == (if r.count > 1 then VarUint(r.count - 2) else []) + tail && buf == VarInt(mag, Sign(f, r)) + more
  {
    UnframedIs(f, r);
    mag, more := Magnitude(f, r), (if r.count > 1 then VarUint(r.count - 2) else []) + tail;
    Associate(VarInt(mag, Sign(f, r)), if r.count > 1 then VarUint(r.count - 2) else [], tail);
  }

  /** What follows the head of a run. */
  method ReadRest(f: Framing, mag: nat, negative: bool, mid: seq<Byte>, ghost buf: seq<Byte>, ghost r: Run, ghost tail: seq<Byte>, ghost good: bool) returns (run: Result<Run>, rest: seq<Byte>)
    requires SaysSigned(buf, mag, negative, mid)
    requires good ==> Fits(f, r) && Short(r) && mag == Magnitude(f, r) && negative == Sign(f, r) && mid == (if r.count > 1 then VarUint(r.count - 2) else []) + tail
    ensures good ==> run == Ok(r) && rest == tail
    ensures run.Ok? ==> 0 < run.value.count <= MaxRun
    ensures if run.Ok? then RunSays(f, buf, run.value, rest) else NoRun(f, buf)
  {
    run, rest := Failed, mid;
    if good { UnframedIs(f, r); }
    if f.Difference? && mag >= Max64 / 2 {
      TooFar(buf, mag, negative, mid);
      return;
    }
    var (value, counted) := Unframed(f, mag, negative);
    if !counted {
      assert RunSaysBy(f, buf, Run(value, 1), rest, mag, negative, mid);
      return Ok(Run(value, 1)), rest;
    }
    var n;
    n, rest := ReadUvarint(rest, if good && r.count > 1 then r.count - 2 else 0, tail);
    if n.Failed? || n.value > MaxRun - 2 {
      if n.Ok? { CountTooLarge(mid, n.value, rest); }
      NoCount(f, buf, mag, negative, mid);
      return;
    }
    assert RunSaysBy(f, buf, Run(value, n.value + 2), rest, mag, negative, mid);
    run := Ok(Run(value, n.value + 2));
  }

  /** Taking the first run off. */
  lemma {:induction false} NextRun(f: Framing, runs: seq<Run>)
    requires AllFit(f, runs) && AllShort(runs) && runs != []
    ensures Fits(f, runs[0]) && Short(runs[0]) && AllFit(f, runs[1..]) && AllShort(runs[1..])
    ensures AllBytes(f, runs) == RunBytes(f, runs[0]) + AllBytes(f, runs[1..])
    ensures Expand(runs) == Repeat(runs[0].value, runs[0].count) + Expand(runs[1..])
  {
    FitsRest(f, runs);
    forall i | 0 <= i < |runs[1..]| ensures Short(runs[1..][i]) { assert Short(runs[i + 1]); }
    assert Short(runs[0]);
  }

  /** One value of the current run. */
  lemma {:induction false} TakeOne(v: int, n: nat, rest: seq<int>)
    requires n > 0
    ensures var all := Repeat(v, n) + rest; |all| > 0 && all[0] == v && all[1..] == Repeat(v, n - 1) + rest
  {
    RepeatMore(v, n - 1);
    assert ([v] + Repeat(v, n - 1)) + rest == [v] + (Repeat(v, n - 1) + rest);
  }

  // ---------------------------------------------------------------- numbers

  /** The bytes of a single run of numbers. */
  lemma {:induction false} PlainRun(runs: seq<Run>, v: nat, n: nat)
    requires AllFit(Plain, runs) && Maximal(runs) && Expand(runs) == Repeat(v, n) && n > 0
    ensures AllBytes(Plain, runs) == if n == 1 then VarInt(v, false) else VarInt(v, true) + VarUint(n - 2)
  {
    OneRun(runs, v, n);
    assert Fits(Plain, runs[0]) && runs[1..] == [];
  }

  class UintEncoder {
    var buf: seq<Byte>
    var s: nat
    var count: nat
    ghost var runs: seq<Run>
    ghost var written: seq<int>

    ghost predicate Valid()
      reads this
    {
      && AllFit(Plain, runs) && buf == AllBytes(Plain, runs) && s < Max64
      && written == Expand(runs) + Repeat(s, count) && (count == 0 ==> runs == [])
      && Maximal(runs + if count > 0 then [Run(s, count)] else [])
    }

    constructor ()
      ensures Valid() && written == []
    {
      buf, s, count, runs, written := [], 0, 0, [], [];
    }

    /** `flush`: the pending run is written. */
    method Flush()
      requires Valid()
      modifies `buf, `runs
      ensures AllFit(Plain, runs) && buf == AllBytes(Plain, runs) && Expand(runs) == written
      ensures Maximal(runs) && (if count > 0 then runs == old(runs) + [Run(s, count)] else runs == [])
    {
      if count == 0 {
        assert runs + [] == runs;
        return;
      }
      var r := Run(s, count);
      BytesAppend(Plain, runs, r);
      ExpandAppend(runs, r);
      buf := WriteRun(Plain, buf, r);
      runs := runs + [r];
    }

    method WriteValue(v: nat)
      requires Valid() && v < Max64
      modifies this
      ensures Valid() && written == old(written) + [v]
    {
      RepeatMore(v, count);
      if count > 0 && s == v {
        MaximalGrows(runs, s, count, count + 1);
        count := count + 1;
      } else {
        Flush();
        MaximalAppend(runs, Run(v, 1));
        count, s := 1, v;
      }
      written := written + [v];
    }

    /** The bytes of all runs, as long as they can be; for one value a single run. */
    method Bytes() returns (out: seq<Byte>, ghost all: seq<Run>)
      requires Valid()
      modifies this
      ensures AllFit(Plain, all) && out == AllBytes(Plain, all) && Expand(all) == old(written) && Maximal(all)
      ensures forall v: nat {:trigger VarInt(v, false)} :: old(written) == [v] ==> out == VarInt(v, false)
      ensures forall v: nat, n: nat {:trigger VarInt(v, true), VarUint(n - 2)} :: n > 1 && old(written) == Repeat(v, n) ==> out == VarInt(v, true) + VarUint(n - 2)
    {
      Flush();
      out, all := buf, runs;
      forall v: nat | old(written) == [v] ensures out == VarInt(v, false) {
        RepeatOne(v);
        PlainRun(all, v, 1);
      }
      forall v: nat, n: nat | n > 1 && old(written) == Repeat(v, n) ensures out == VarInt(v, true) + VarUint(n - 2) { PlainRun(all, v, n); }
    }
  }

  /** The bytes of these runs of numbers, none of them too long. */
  ghost predicate Awaits(buf: seq<Byte>, runs: seq<Run>) {
    AllFit(Plain, runs) && AllShort(runs) && buf == AllBytes(Plain, runs)
  }

  /** If the bytes are what an encoder wrote: `count` times `s`, then the runs, are what is left. */
  ghost predicate UintsLeft(good: bool, buf: seq<Byte>, s: int, count: nat, runs: seq<Run>, remaining: seq<int>) {
    good ==> Awaits(buf, runs) && remaining == Repeat(s, count) + Expand(runs)
  }

  lemma {:induction false} OneUintLess(good: bool, buf: seq<Byte>, s: int, count: nat, runs: seq<Run>, remaining: seq<int>)
    requires UintsLeft(good, buf, s, count, runs, remaining) && count > 0
    ensures good ==> remaining != [] && remaining[0] == s
    ensures UintsLeft(good, buf, s, count - 1, runs, if good then remaining[1..] else remaining)
  {
    if good { TakeOne(s, count, Expand(runs)); }
  }

  class UintDecoder {
    var buf: seq<Byte>
    var s: int
    var count: nat
    /** The bytes are what an encoder wrote; then `runs` and `remaining` say what is left. */
    ghost var good: bool
    ghost var runs: seq<Run>
    ghost var remaining: seq<int>

    ghost predicate Valid()
      reads this
    {
      UintsLeft(good, buf, s, count, runs, remaining)
    }

    constructor (data: seq<Byte>, ghost all: seq<Run>)
      ensures Valid() && buf == data && count == 0 && (good <==> Awaits(data, all)) && remaining == Expand(all)
    {
      buf, s, count, good, runs, remaining := data, 0, 0, Awaits(data, all), all, Expand(all);
    }

    /** The next run is read, if there is one. */
    method Refill() returns (ok: bool)
      requires Valid() && count == 0
      modifies `buf, `s, `count, `runs
      ensures Valid() && (good ==> (ok <==> remaining != []))
      ensures if ok then count > 0 && RunSays(Plain, old(buf), Run(s, count), buf) else NoRun(Plain, old(buf))
    {
      assert Repeat(s, 0) + Expand(runs) == Expand(runs);
      if good && runs != [] { NextRun(Plain, runs); }
      var run, rest := ReadRun(Plain, buf, if runs == [] then Run(0, 1) else runs[0], if !good || runs == [] then [] else AllBytes(Plain, runs[1..]));
      ok := run.Ok?;
      if ok {
        s, count, buf, runs := run.value.value, run.value.count, rest, if runs == [] then [] else runs[1..];
      }
    }

    /** `readValue`: the next value, or a failure when there is none. */
    method ReadValue() returns (v: Result<int>)
      requires Valid()
      modifies this
      ensures Valid() && good == old(good)
      ensures good ==> if old(remaining) == [] then v.Failed? && remaining == [] else v == Ok(old(remaining)[0]) && remaining == old(remaining)[1..]
      ensures old(count) > 0 ==> v == Ok(old(s)) && (buf, s, count) == (old(buf), old(s), old(count) - 1)
      ensures old(count) == 0 ==> if v.Ok? then v.value == s && RunSays(Plain, old(buf), Run(s, count + 1), buf) else NoRun(Plain, old(buf))
    {
      if count == 0 {
        var ok := Refill();
        if !ok { return Failed; }
      }
      v := Step();
    }

    /** One value of the current run. */
    method Step() returns (v: Result<int>)
      requires Valid() && count > 0
      modifies `count, `remaining
      ensures Valid() && v == Ok(s) && count == old(count) - 1
      ensures good ==> old(remaining) != [] && s == old(remaining)[0] && remaining == old(remaining)[1..]
    {
      OneUintLess(good, buf, s, count, runs, remaining);
      count := count - 1;
      if good { remaining := remaining[1..]; }
      v := Ok(s);
    }
  }

  method EncodeUints(values: seq<int>) returns (data: seq<Byte>, ghost all: seq<Run>)
    requires forall i :: 0 <= i < |values| ==> 0 <= values[i] < Max64
    ensures AllFit(Plain, all) && data == AllBytes(Plain, all) && Expand(all) == values
  {
    var e := new UintEncoder();
    for i := 0 to |values|
      invariant e.Valid() && e.written == values[..i] && fresh(e)
    {
      OneRead(values, i);
      e.WriteValue(values[i]);
    }
    assert values[..|values|] == values;
    data, all := e.Bytes();
  }

  lemma {:induction false} OneRead(values: seq<int>, i: nat)
    requires i < |values|
    ensures values[i..] != [] && values[i..][0] == values[i] && values[i..][1..] == values[i + 1..] && values[..i] + [values[i]] == values[..i + 1]
  {
  }

  method DecodeUints(data: seq<Byte>, n: nat, ghost values: seq<int>, ghost all: seq<Run>) returns (out: seq<int>)
    requires AllFit(Plain, all) && AllShort(all) && data == AllBytes(Plain, all) && values == Expand(all) && n == |values|
    ensures out == values
  {
    var d := new UintDecoder(data, all);
    out := [];
    assert values[0..] == values;
    for i := 0 to n
      invariant d.Valid() && fresh(d) && d.good && out == values[..i] && d.remaining == values[i..]
    {
      OneRead(values, i);
      var v := d.ReadValue();
      out := out + [v.value];
    }
  }

  /** Whatever numbers are written, as long as none stands too often in a row, are read back. */
  method UintRoundTrip(values: seq<int>) returns (out: seq<int>)
    requires NoLongRun(values) && forall i :: 0 <= i < |values| ==> 0 <= values[i] < Max64
    ensures out == values
  {
    var data;
    ghost var all;
    data, all := EncodeUints(values);
    NoLongRunMeansShort(all);
    out := DecodeUints(data, |values|, values, all);
  }
}

/** The delete ranges of the second update format: each clock is written as its distance
    from the end of the range before, each length less one. */
module RangeCodec {
  import opened VarInts
  import opened DeleteSets

  const MaxSafe: nat := 0x1f_ffff_ffff_ffff
  const MaxInt: nat := 0x7fff_ffff_ffff_ffff

  /** Ranges in order from `at` on, none empty, with numbers the reader accepts. */
  predicate Readable(at: nat, rs: seq<Range>)
    decreases |rs|
  {
    rs == [] ||
    (&& at <= rs[0].clock <= at + MaxSafe && 0 < rs[0].length <= MaxSafe + 1 && End(rs[0]) <= MaxInt
     && Readable(End(rs[0]), rs[1..]))
  }

  predicate RangeOk(at: nat, rs: seq<Range>, i: nat)
    requires i < |rs|
  {
    var from := if i == 0 then at else rs[i - 1].clock + rs[i - 1].length;
    from <= rs[i].clock <= from + 0x1f_ffff_ffff_ffff && 0 < rs[i].length <= 0x20_0000_0000_0000 && rs[i].clock + rs[i].length <= 0x7fff_ffff_ffff_ffff
  }

  /** The distances are safe integers, and so are the lengths less one; the clocks fit 63 bits. */
  lemma {:induction false} ReadableIs(at: nat, rs: seq<Range>)
    ensures Readable(at, rs) <==> forall i {:trigger RangeOk(at, rs, i)} :: 0 <= i < |rs| ==> RangeOk(at, rs, i)
    decreases |rs|
  {
    if rs != [] {
      var rest, end := rs[1..], End(rs[0]);
      ReadableIs(end, rest);
      assert forall i {:trigger RangeOk(end, rest, i)} :: 0 <= i < |rest| ==> (RangeOk(end, rest, i) <==> RangeOk(at, rs, i + 1));
      if Readable(at, rs) {
        forall i | 0 <= i < |rs| ensures RangeOk(at, rs, i) { assert i > 0 ==> RangeOk(end, rest, i - 1); }
      }
      if forall i {:trigger RangeOk(at, rs, i)} :: 0 <= i < |rs| ==> RangeOk(at, rs, i) {
        assert RangeOk(at, rs, 0);
        forall i | 0 <= i < |rest| ensures RangeOk(end, rest, i) { assert RangeOk(at, rs, i + 1); }
      }
    }
  }

  function RangeBytes(at: nat, rs: seq<Range>): seq<Byte>
    requires Readable(at, rs)
    decreases |rs|
  {
    if rs == [] then [] else VarUint(rs[0].clock - at) + (VarUint(rs[0].length - 1) + RangeBytes(End(rs[0]), rs[1..]))
  }

  class RangeEncoder {
    var rest: seq<Byte>
    var currVal: nat

    constructor ()
      ensures rest == [] && currVal == 0
    {
      rest, currVal := [], 0;
    }

    /** `writeDSClock` */
    method WriteClock(clock: nat)
      requires currVal <= clock
      modifies this
      ensures rest == old(rest) + VarUint(clock - old(currVal)) && currVal == clock
    {
      var diff := clock - currVal;
      currVal := clock;
      rest := AppendVarUint(rest, diff);
    }

    /** `writeDSLength`: an empty range cannot be written. */
    method WriteLength(length: nat) returns (ok: bool)
      modifies this
      ensures ok <==> length > 0
      ensures ok ==> rest == old(rest) + VarUint(length - 1) && currVal == old(currVal) + length
      ensures !ok ==> rest == old(rest) && currVal == old(currVal)
    {
      if length == 0 {
        return false;
      }
      rest := AppendVarUint(rest, length - 1);
      currVal := currVal + length;
      ok := true;
    }
  }

  /** No number can be read, or one that is not safe, or one that leads too far from `at`. */
  ghost predicate Refused(buf: seq<Byte>, at: nat) {
    forall n: nat, more {:trigger Says(buf, 0, 0, 10, n, more)} :: Says(buf, 0, 0, 10, n, more) ==> n > 0x1f_ffff_ffff_ffff || at + n > 0x7fff_ffff_ffff_ffff
  }

  lemma {:induction false} SaysOnly(buf: seq<Byte>, n: nat, rest: seq<Byte>)
    requires Says(buf, 0, 0, 10, n, rest)
    ensures forall m: nat, more {:trigger Says(buf, 0, 0, 10, m, more)} :: Says(buf, 0, 0, 10, m, more) ==> m == n
  {
    forall m: nat, more | Says(buf, 0, 0, 10, m, more) ensures m == n { SaysOnce(buf, 0, 0, 10, n, rest, m, more); }
  }

  class RangeDecoder {
    var rest: seq<Byte>
    var currVal: nat

    constructor (data: seq<Byte>)
      ensures rest == data && currVal == 0
    {
      rest, currVal := data, 0;
    }

    /** `addDsCurVal`: a sum that does not fit is refused. */
    method Advance(delta: nat) returns (ok: bool)
      modifies `currVal
      ensures ok <==> old(currVal) + delta <= MaxInt
      ensures currVal == if ok then old(currVal) + delta else old(currVal)
    {
      ok := delta <= MaxInt - currVal;
      if ok { currVal := currVal + delta; }
    }

    /** `readDSClock` */
    method ReadClock(ghost clock: nat, ghost tail: seq<Byte>) returns (v: Result<nat>)
      requires currVal <= MaxInt
      modifies this
      ensures currVal <= MaxInt
      ensures old(currVal) <= clock <= old(currVal) + MaxSafe && clock <= MaxInt && old(rest) == VarUint(clock - old(currVal)) + tail ==>
                v == Ok(clock) && rest == tail && currVal == clock
      ensures v.Ok? ==> v.value == currVal && old(currVal) <= currVal <= old(currVal) + MaxSafe && Says(old(rest), 0, 0, 10, currVal - old(currVal), rest)
      ensures v.Failed? ==> Refused(old(rest), old(currVal))
    {
      var n;
      ghost var buf := rest;
      n, rest := ReadUvarint(rest, if currVal <= clock then clock - currVal else 0, tail);
      if n.Ok? { SaysOnly(buf, n.value, rest); }
      if n.Failed? || n.value > MaxSafe {
        return Failed;
      }
      var ok := Advance(n.value);
      v := if ok then Ok(currVal) else Failed;
    }

    /** `readDSLength` */
    method ReadLength(ghost length: nat, ghost tail: seq<Byte>) returns (v: Result<nat>)
      requires currVal <= MaxInt
      modifies this
      ensures currVal <= MaxInt
      ensures 0 < length <= MaxSafe + 1 && old(currVal) + length <= MaxInt && old(rest) == VarUint(length - 1) + tail ==>
                v == Ok(length) && rest == tail && currVal == old(currVal) + length
      ensures v.Ok? ==> 0 < v.value <= MaxSafe + 1 && currVal == old(currVal) + v.value && Says(old(rest), 0, 0, 10, v.value - 1, rest)
      ensures v.Failed? ==> Refused(old(rest), old(currVal) + 1)
    {
      var n;
      ghost var buf := rest;
      n, rest := ReadUvarint(rest, if length > 0 then length - 1 else 0, tail);
      if n.Ok? { SaysOnly(buf, n.value, rest); }
      if n.Failed? || n.value > MaxSafe {
        return Failed;
      }
      var ok := Advance(n.value + 1);
      v := if ok then Ok(n.value + 1) else Failed;
    }
  }

  method EncodeRanges(rs: seq<Range>) returns (data: seq<Byte>)
    requires Readable(0, rs)
    ensures data == RangeBytes(0, rs)
  {
    var e := new RangeEncoder();
    ghost var left, at := rs, 0;
    for i := 0 to |rs|
      invariant left == rs[i..] && at == e.currVal && fresh(e) && Readable(at, left) && e.rest + RangeBytes(at, left) == RangeBytes(0, rs)
    {
      Peel(e.rest, at, left);
      assert left[0] == rs[i];
      e.WriteClock(rs[i].clock);
      var ok := e.WriteLength(rs[i].length);
      left, at := left[1..], End(rs[i]);
    }
    data := e.rest;
  }

  lemma {:induction false} Peel(front: seq<Byte>, at: nat, rs: seq<Range>)
    requires Readable(at, rs) && rs != []
    ensures front + RangeBytes(at, rs) == front + VarUint(rs[0].clock - at) + VarUint(rs[0].length - 1) + RangeBytes(End(rs[0]), rs[1..])
  {
  }

  method ReadRange(d: RangeDecoder, ghost r: Range, ghost tail: seq<Byte>) returns (x: Range)
    requires d.currVal <= MaxInt && d.currVal <= r.clock <= d.currVal + MaxSafe && 0 < r.length <= MaxSafe + 1 && End(r) <= MaxInt
    requires d.rest == VarUint(r.clock - d.currVal) + (VarUint(r.length - 1) + tail)
    modifies d
    ensures x == r && d.rest == tail && d.currVal == End(r)
  {
    var clock := d.ReadClock(r.clock, VarUint(r.length - 1) + tail);
    var length := d.ReadLength(r.length, tail);
    x := Range(clock.value, length.value);
  }

  method DecodeRanges(data: seq<Byte>, n: nat, ghost rs: seq<Range>) returns (out: seq<Range>)
    requires Readable(0, rs) && data == RangeBytes(0, rs) && n == |rs|
    ensures out == rs
  {
    var d := new RangeDecoder(data);
    out := [];
    ghost var left := rs;
    for i := 0 to n
      invariant left == rs[i..] && out == rs[..i] && fresh(d) && d.currVal <= MaxInt && Readable(d.currVal, left) && d.rest == RangeBytes(d.currVal, left)
    {
      ghost var r := left[0];
      ghost var tail := RangeBytes(End(r), left[1..]);
      var x := ReadRange(d, r, tail);
      out := out + [x];
      left := left[1..];
      assert rs[..i] + [rs[i]] == rs[..i + 1];
    }
  }

  /** Delete ranges in order come back as they were written. */
  method RangeRoundTrip(rs: seq<Range>) returns (out: seq<Range>)
    requires Readable(0, rs)
    ensures out == rs
  {
    var data := EncodeRanges(rs);
    out := DecodeRanges(data, |rs|, rs);
  }

  /** A normalised set of a client's ranges is in that form, as far as its clocks go up to
      the largest safe integer. */
  lemma {:induction false} NormalIsReadable(at: nat, rs: seq<Range>)
    requires Normal(rs) && (rs != [] ==> at <= rs[0].clock) && (forall i :: 0 <= i < |rs| ==> End(rs[i]) <= 0x1f_ffff_ffff_ffff)
    ensures Readable(at, rs)
    decreases |rs|
  {
    if rs != [] {
      var rest := rs[1..];
      assert Normal(rest) by {
        forall i, j | 0 <= i < j < |rest| ensures End(rest[i]) < rest[j].clock { assert End(rs[i + 1]) < rs[j + 1].clock; }
      }
      assert |rs| > 1 ==> End(rs[0]) < rs[1].clock;
      NormalIsReadable(End(rs[0]), rest);
    }
  }
}

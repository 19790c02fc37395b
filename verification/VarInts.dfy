/** The variable-length integers of the column codecs: groups of seven bits, lowest
    first; with a sign the first byte holds six bits and the sign, and keeps it even
    for zero. */
module VarInts {
  import opened Powers

  type Byte = b: int | 0 <= b < 256

  datatype Result<T> = Ok(value: T) | Failed

  /** The eighth bit of a byte says that more bytes follow. */
  function VarUint(n: nat): seq<Byte> {
    if n < 128 then [n] else [n % 128 + 128] + VarUint(n / 128)
  }

  function First(n: nat, negative: bool): Byte {
    n % 64 + (if n > 63 then 128 else 0) + (if negative then 64 else 0)
  }

  function VarInt(n: nat, negative: bool): seq<Byte> {
    [First(n, negative)] + if n > 63 then VarUint(n / 64) else []
  }

  // ---------------------------------------------------------------- writing

  /** The loop that both writers share; it writes nothing for zero. */
  method AppendGroups(dst: seq<Byte>, number: nat) returns (out: seq<Byte>)
    ensures out == dst + if number > 0 then VarUint(number) else []
  {
    out := dst;
    var num := number;
    while num > 0
      invariant number == 0 ==> out == dst && num == 0
      invariant number > 0 ==> out + (if num > 0 then VarUint(num) else []) == dst + VarUint(number)
    {
      var b: Byte := num % 128 + if num > 127 then 128 else 0;
      out := out + [b];
      num := num / 128;
    }
  }

  /** `writeVarIntMag` */
  method WriteVarIntMag(dst: seq<Byte>, num: nat, negative: bool) returns (out: seq<Byte>)
    ensures out == dst + VarInt(num, negative)
  {
    var first: Byte := num % 64;
    if num > 63 { first := first + 128; }
    if negative { first := first + 64; }
    out := AppendGroups(dst + [first], num / 64);
  }

  /** `appendVarIntMag`: short numbers without the loop; the bytes are the same. */
  method AppendVarIntMag(dst: seq<Byte>, num: nat, negative: bool) returns (out: seq<Byte>)
    ensures out == dst + VarInt(num, negative)
  {
    var first: Byte := num % 64 + if negative then 64 else 0;
    VarIntForms(num, negative);
    if num <= 63 {
      return dst + [first];
    }
    first := first + 128;
    if num < 8192 {
      return dst + [first, num / 64];
    }
    var second: Byte := num / 64 % 128 + 128;
    out := AppendGroups(dst + [first, second], num / 8192);
  }

  /** One byte, two bytes, or two and the rest. */
  lemma {:induction false} VarIntForms(num: nat, negative: bool)
    ensures num <= 63 ==> VarInt(num, negative) == [First(num, negative)]
    ensures 63 < num < 8192 ==> num / 64 < 128 && VarInt(num, negative) == [First(num, negative), num / 64]
    ensures num >= 8192 ==> num / 8192 > 0 && VarInt(num, negative) == [First(num, negative), num / 64 % 128 + 128] + VarUint(num / 8192)
  {
    LongVarInt(num);
  }

  lemma {:induction false} LongVarInt(num: nat)
    ensures 63 < num < 8192 ==> 0 < num / 64 < 128 && VarUint(num / 64) == [num / 64]
    ensures num >= 8192 ==> num / 8192 > 0 && VarUint(num / 64) == [num / 64 % 128 + 128] + VarUint(num / 8192)
  {
    assert num / 64 / 128 == num / 8192;
  }

  /** `appendVarUint` */
  method AppendVarUint(dst: seq<Byte>, number: nat) returns (out: seq<Byte>)
    ensures out == dst + VarUint(number)
  {
    if number < 128 {
      return dst + [number];
    }
    if number < 16384 {
      assert VarUint(number) == [number % 128 + 128] + VarUint(number / 128);
      return dst + [number % 128 + 128, number / 128];
    }
    out := dst;
    var num := number;
    while num >= 128
      invariant out + VarUint(num) == dst + VarUint(number)
    {
      var b: Byte := num % 128 + 128;
      assert VarUint(num) == [b] + VarUint(num / 128);
      out := out + [b];
      num := num / 128;
    }
    out := out + [num];
  }

  // ---------------------------------------------------------------- reading

  const Max64: nat := 0x1_0000_0000_0000_0000

  lemma {:induction false} Power2Of64()
    ensures Power2(64) == Max64
  {
    assert Power2(8) == 256;
    assert Power2(16) == 0x1_0000 by { assert Power2(12) == 0x1000; }
    assert Power2(24) == 0x100_0000 by { assert Power2(20) == 0x10_0000; }
    assert Power2(32) == 0x1_0000_0000 by { assert Power2(28) == 0x1000_0000; }
    assert Power2(40) == 0x100_0000_0000 by { assert Power2(36) == 0x10_0000_0000; }
    assert Power2(48) == 0x1_0000_0000_0000 by { assert Power2(44) == 0x1000_0000_0000; }
    assert Power2(56) == 0x100_0000_0000_0000 by { assert Power2(52) == 0x10_0000_0000_0000; }
    assert Power2(60) == 0x1000_0000_0000_0000;
  }

  lemma {:induction false} Power2Plus7(n: nat)
    ensures Power2(n + 7) == 128 * Power2(n)
  {
    calc {
      Power2(n + 7);
      2 * Power2(n + 6);
      4 * Power2(n + 5);
      8 * Power2(n + 4);
      16 * Power2(n + 3);
      32 * Power2(n + 2);
      64 * Power2(n + 1);
      128 * Power2(n);
    }
  }

  /** What has been read, and what is still to come. */
  ghost predicate Reading(n: nat, num: nat, m: nat, shift: nat) {
    num + m * Power2(shift) == n
  }

  lemma {:induction false} ReadStep(n: nat, num: nat, m: nat, shift: nat)
    requires Reading(n, num, m, shift)
    ensures Reading(n, num + m % 128 * Power2(shift), m / 128, shift + 7)
    ensures m % 128 * Power2(shift) <= n
    ensures m > 0 ==> Power2(shift) <= n
  {
    var p := Power2(shift);
    Power2Plus7(shift);
    assert m == 128 * (m / 128) + m % 128;
    Distribute(m / 128, m % 128, p);
    if m > 0 { assert 1 * p <= m * p by { Monotone(1, m, p); } }
  }

  lemma {:induction false} Distribute(a: nat, b: nat, p: nat)
    ensures (128 * a + b) * p == a * (128 * p) + b * p
  {
  }

  lemma {:induction false} Monotone(a: nat, b: nat, p: nat)
    requires a <= b
    ensures a * p <= b * p
  {
  }

  /** While something is left to read the bits stay below 64. */
  lemma {:induction false} ShiftBounded(n: nat, shift: nat)
    requires n < Max64 && Power2(shift) <= n
    ensures shift < 64
  {
    Power2Of64();
    if shift >= 64 { Power2Grows(64, shift); }
  }

  function ShiftLeft(chunk: nat, shift: nat): nat {
    chunk * Power2(shift)
  }

  /** One group of a number that is being read. */
  lemma {:induction false} GroupStep(n: nat, num: nat, m: nat, shift: nat, buf: seq<Byte>, tail: seq<Byte>)
    requires buf == VarUint(m) + tail && n < Max64 && Reading(n, num, m, shift) && (shift < 7 || m > 0)
    ensures buf != [] && buf[0] % 128 == m % 128 && (buf[0] < 128 <==> m < 128)
    ensures shift < 64 && ShiftLeft(m % 128, shift) < Max64
    ensures if m < 128 then buf[1..] == tail && num + ShiftLeft(m % 128, shift) == n
            else buf[1..] == VarUint(m / 128) + tail && m / 128 > 0 && Reading(n, num + ShiftLeft(m % 128, shift), m / 128, shift + 7)
  {
    ReadStep(n, num, m, shift);
    if m > 0 { ShiftBounded(n, shift); }
    assert m < 128 ==> m / 128 == 0;
  }

  // ---------------------------------------------------------------- what any bytes say

  /** Byte `k` is the first that does not say that more follow. */
  ghost predicate Ends(buf: seq<Byte>, k: nat) {
    k < |buf| && buf[k] < 128 && forall i {:trigger buf[i]} :: 0 <= i < k ==> buf[i] >= 128
  }

  /** The groups of the first `n` bytes, from bit `from` on. */
  ghost function Groups(buf: seq<Byte>, from: nat, n: nat): nat
    requires n <= |buf|
  {
    if n == 0 then 0 else Groups(buf, from, n - 1) + ShiftLeft(buf[n - 1] % 128, from + 7 * (n - 1))
  }

  ghost predicate SaysBy(buf: seq<Byte>, start: nat, from: nat, limit: nat, n: nat, rest: seq<Byte>, k: nat) {
    k < limit && Ends(buf, k) && n == start + Groups(buf, from, k + 1) && n < Max64 && rest == buf[k + 1..]
  }

  /** The bytes begin with the groups of `n`, which is less than 2^64, in at most `limit` bytes. */
  ghost predicate Says(buf: seq<Byte>, start: nat, from: nat, limit: nat, n: nat, rest: seq<Byte>) {
    exists k: nat :: SaysBy(buf, start, from, limit, n, rest, k)
  }

  /** A first byte with six bits and the sign, and groups if it says so. */
  ghost predicate SaysSigned(buf: seq<Byte>, n: nat, negative: bool, rest: seq<Byte>) {
    && buf != [] && negative == (buf[0] / 64 % 2 == 1)
    && if buf[0] < 128 then n == buf[0] % 64 && rest == buf[1..] else Says(buf[1..], buf[0] % 64, 6, 9, n, rest)
  }

  lemma {:induction false} GroupsGrow(buf: seq<Byte>, from: nat, m: nat, n: nat)
    requires m <= n <= |buf|
    ensures Groups(buf, from, m) <= Groups(buf, from, n)
  {
    if m < n { GroupsGrow(buf, from, m, n - 1); }
  }

  /** Bytes say one thing. */
  lemma {:induction false} SaysOnce(buf: seq<Byte>, start: nat, from: nat, limit: nat, m: nat, a: seq<Byte>, n: nat, b: seq<Byte>)
    requires Says(buf, start, from, limit, m, a) && Says(buf, start, from, limit, n, b)
    ensures m == n && a == b
  {
    var j: nat :| SaysBy(buf, start, from, limit, m, a, j);
    var k: nat :| SaysBy(buf, start, from, limit, n, b, k);
  }

  lemma {:induction false} SaysSignedOnce(buf: seq<Byte>, m: nat, s: bool, a: seq<Byte>, n: nat, t: bool, b: seq<Byte>)
    requires SaysSigned(buf, m, s, a) && SaysSigned(buf, n, t, b)
    ensures m == n && s == t && a == b
  {
    if buf[0] >= 128 { SaysOnce(buf[1..], buf[0] % 64, 6, 9, m, a, n, b); }
  }

  lemma {:induction false} Power2Splits(m: nat, n: nat)
    ensures Power2(m + n) == Power2(m) * Power2(n)
  {
    if m > 0 {
      Power2Splits(m - 1, n);
      Double(Power2(m - 1), Power2(n));
    } else {
      assert Power2(0) == 1;
    }
  }

  lemma {:induction false} Double(a: nat, b: nat)
    ensures 2 * (a * b) == (2 * a) * b
  {
  }

  /** A group whose bits are below the 64th leaves room for all bits below it. */
  lemma {:induction false} RoomBelow(num: nat, chunk: nat, shift: nat)
    requires num < Power2(shift) && shift < 64 && ShiftLeft(chunk, shift) < Max64
    ensures num + ShiftLeft(chunk, shift) < Max64
  {
    Power2Of64();
    Power2Splits(64 - shift, shift);
    var p, q := Power2(shift), Power2(64 - shift);
    if chunk >= q { Monotone(q, chunk, p); }
    Monotone(chunk + 1, q, p);
    assert (chunk + 1) * p == chunk * p + p;
  }

  /** The bits read so far stay below the next ones. */
  lemma {:induction false} BelowNext(num: nat, chunk: nat, shift: nat)
    requires num < Power2(shift) && chunk < 128
    ensures num + ShiftLeft(chunk, shift) < Power2(shift + 7)
  {
    var p := Power2(shift);
    Power2Plus7(shift);
    Monotone(chunk + 1, 128, p);
    assert (chunk + 1) * p == chunk * p + p;
  }

  /** Byte `i` goes on, and so far there is no end. */
  ghost predicate GoesOn(buf: seq<Byte>, i: nat) {
    i <= |buf| && forall j {:trigger buf[j]} :: 0 <= j < i ==> buf[j] >= 128
  }

  lemma {:induction false} NoEnd(buf: seq<Byte>, start: nat, from: nat, limit: nat, i: nat)
    requires GoesOn(buf, i) && (i == |buf| || limit <= i || start + Groups(buf, from, i + 1) >= Max64)
    ensures NoneSays(buf, start, from, limit)
  {
    forall n, rest ensures !Says(buf, start, from, limit, n, rest) {
      if Says(buf, start, from, limit, n, rest) {
        var k: nat :| SaysBy(buf, start, from, limit, n, rest, k);
        assert k >= i;
        if i < |buf| { GroupsGrow(buf, from, i + 1, k + 1); }
      }
    }
  }

  lemma {:induction false} EndsHere(buf: seq<Byte>, start: nat, from: nat, limit: nat, i: nat, n: nat)
    requires GoesOn(buf, i) && i < |buf| && i < limit && buf[i] < 128 && n == start + Groups(buf, from, i + 1) && n < Max64
    ensures Says(buf, start, from, limit, n, buf[i + 1..])
  {
    assert SaysBy(buf, start, from, limit, n, buf[i + 1..], i);
  }

  /** Groups of seven bits from bit `from` on; at most `limit` of them, and no bit may
      fall beyond the 64th. */
  method ReadGroups(buf: seq<Byte>, start: nat, from: nat, limit: nat, ghost n: nat, ghost m: nat, ghost tail: seq<Byte>, ghost good: bool) returns (r: Result<nat>, rest: seq<Byte>)
    requires from < 7 && limit > 0 && 64 <= from + 7 * limit < 71 && start < Power2(from)
    requires good ==> buf == VarUint(m) + tail && n < Max64 && Reading(n, start, m, from)
    ensures good ==> r == Ok(n) && rest == tail
    ensures if r.Ok? then Says(buf, start, from, limit, r.value, rest) else NoneSays(buf, start, from, limit)
  {
    var num: nat, shift: nat := start, from;
    ghost var left: nat := m;
    rest := buf;
    for i := 0 to limit
      invariant shift == from + 7 * i && GoesOn(buf, i) && rest == buf[i..]
      invariant num == start + Groups(buf, from, i) && num < Power2(shift)
      invariant good ==> rest == VarUint(left) + tail && Reading(n, num, left, shift) && (shift < 7 || left > 0)
    {
      if good { GroupStep(n, num, left, shift, rest, tail); }
      if rest == [] {
        NoEnd(buf, start, from, limit, i);
        return Failed, rest;
      }
      var b := rest[0];
      rest := rest[1..];
      var chunk := b % 128;
      if shift >= 64 || ShiftLeft(chunk, shift) >= Max64 {
        NoEnd(buf, start, from, limit, i);
        return Failed, rest;
      }
      RoomBelow(num, chunk, shift);
      BelowNext(num, chunk, shift);
      num := num + ShiftLeft(chunk, shift);
      if b < 128 {
        EndsHere(buf, start, from, limit, i, num);
        return Ok(num), rest;
      }
      shift := shift + 7;
      left := left / 128;
    }
    if good { GroupStep(n, num, left, shift, rest, tail); }
    NoEnd(buf, start, from, limit, limit);
    r := Failed;
  }

  /** `readVarIntSigned`: a sign and a number, and the sign of a negative zero is kept. */
  method ReadVarIntSigned(buf: seq<Byte>, ghost n: nat, ghost sign: bool, ghost tail: seq<Byte>) returns (r: Result<(nat, bool)>, rest: seq<Byte>)
    ensures buf == VarInt(n, sign) + tail && n < Max64 ==> r == Ok((n, sign)) && rest == tail
    ensures if r.Ok? then SaysSigned(buf, r.value.0, r.value.1, rest) else NoneSigned(buf)
  {
    if buf == [] {
      return Failed, buf;
    }
    var b := buf[0];
    rest := buf[1..];
    var num: nat, negative := b % 64, b / 64 % 2 == 1;
    ghost var good := buf == VarInt(n, sign) + tail && n < Max64;
    if good { FirstOf(buf, n, sign, tail); }
    if b < 128 {
      return Ok((num, negative)), rest;
    }
    assert Power2(6) == 64;
    var v;
    v, rest := ReadGroups(rest, num, 6, 9, n, n / 64, tail, good);
    r := match v case Ok(x) => Ok((x, negative)) case Failed => Failed;
  }

  ghost predicate NoneSays(buf: seq<Byte>, start: nat, from: nat, limit: nat) {
    forall n, rest {:trigger Says(buf, start, from, limit, n, rest)} :: !Says(buf, start, from, limit, n, rest)
  }

  ghost predicate NoneSigned(buf: seq<Byte>) {
    forall n, s, rest {:trigger SaysSigned(buf, n, s, rest)} :: !SaysSigned(buf, n, s, rest)
  }

  /** A number that was written, at its first byte. */
  lemma {:induction false} FirstOf(buf: seq<Byte>, n: nat, sign: bool, tail: seq<Byte>)
    requires buf == VarInt(n, sign) + tail
    ensures buf != [] && (buf[0] / 64 % 2 == 1) == sign && (buf[0] < 128) == (n <= 63)
    ensures n <= 63 ==> buf[0] % 64 == n && buf[1..] == tail
    ensures n > 63 ==> buf[1..] == VarUint(n / 64) + tail && buf[0] % 64 + n / 64 * 64 == n
  {
    FirstByte(n, sign);
    assert buf[0] == First(n, sign);
    assert buf[1..] == (if n > 63 then VarUint(n / 64) else []) + tail;
  }

  lemma {:induction false} FirstByte(n: nat, negative: bool)
    ensures var b := First(n, negative); b % 64 == n % 64 && (b / 64 % 2 == 1) == negative && (b < 128) == (n <= 63)
    ensures n <= 63 ==> n % 64 == n
  {
  }

  /** `binary.ReadUvarint` */
  method ReadUvarint(buf: seq<Byte>, ghost n: nat, ghost tail: seq<Byte>) returns (r: Result<nat>, rest: seq<Byte>)
    ensures buf == VarUint(n) + tail && n < Max64 ==> r == Ok(n) && rest == tail
    ensures if r.Ok? then Says(buf, 0, 0, 10, r.value, rest) else NoneSays(buf, 0, 0, 10)
  {
    assert Power2(0) == 1;
    r, rest := ReadGroups(buf, 0, 0, 10, n, n, tail, buf == VarUint(n) + tail && n < Max64);
  }
}

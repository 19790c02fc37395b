/** Splitting text at a UTF-16 offset: by a scan, in constant time for ASCII, or with the
    help of a sparse index that fragments of a long text share. */
module Utf16Split {
  import opened Wrappers
  import Utf8Text
  import VarInts

  /** Text as its code points. */
  type Text = seq<int>

  const Replacement: int := 0xfffd

  function Width(c: int): nat { if c >= 0x1_0000 then 2 else 1 }

  function Size(c: int): nat { if c < 0x80 then 1 else if c < 0x800 then 2 else if c < 0x1_0000 then 3 else 4 }

  /** UTF-16 units and UTF-8 bytes of the first `n` characters. */
  function UnitsTo(s: Text, n: nat): nat
    requires n <= |s|
  {
    if n == 0 then 0 else UnitsTo(s, n - 1) + Width(s[n - 1])
  }

  function BytesTo(s: Text, n: nat): nat
    requires n <= |s|
  {
    if n == 0 then 0 else BytesTo(s, n - 1) + Size(s[n - 1])
  }

  function Units(s: Text): nat { UnitsTo(s, |s|) }

  lemma {:induction false} UnitsGrow(s: Text, m: nat, n: nat)
    requires m <= n <= |s|
    ensures UnitsTo(s, m) + (n - m) <= UnitsTo(s, n) <= UnitsTo(s, m) + 2 * (n - m)
  {
    if m < n { UnitsGrow(s, m, n - 1); }
  }

  /** Bytes are as many as units exactly if all characters are ASCII. */
  lemma {:induction false} AsciiWidth(s: Text, n: nat)
    requires n <= |s|
    ensures BytesTo(s, n) >= UnitsTo(s, n)
    ensures BytesTo(s, n) == UnitsTo(s, n) <==> forall i :: 0 <= i < n ==> s[i] < 0x80
    ensures BytesTo(s, n) == UnitsTo(s, n) ==> UnitsTo(s, n) == n
  {
    if n > 0 { AsciiWidth(s, n - 1); }
  }

  lemma {:induction false} UnitsOfPart(s: Text, a: nat, b: nat, n: nat)
    requires a <= b <= |s| && n <= b - a
    ensures UnitsTo(s[a..b], n) == UnitsTo(s, a + n) - UnitsTo(s, a)
  {
    if n > 0 { UnitsOfPart(s, a, b, n - 1); }
  }

  lemma {:induction false} UnitsOfConcat(a: Text, b: Text, n: nat)
    requires n <= |b|
    ensures UnitsTo(a + b, |a| + n) == Units(a) + UnitsTo(b, n)
  {
    if n > 0 { UnitsOfConcat(a, b, n - 1); } else { UnitsOfPart(a + b, 0, |a|, |a|); assert (a + b)[0..|a|] == a; }
  }

  // ---------------------------------------------------------------- what a split is

  /** `target` lies before character `at`, or in the middle of it. */
  predicate Boundary(s: Text, at: nat, target: nat, bisects: bool) {
    && at <= |s|
    && (if bisects then at < |s| && Width(s[at]) == 2 && UnitsTo(s, at) + 1 == target else UnitsTo(s, at) == target)
  }

  datatype Halves = Halves(left: Text, right: Text, shared: bool)

  /** A surrogate pair that is cut leaves a replacement character on both sides. */
  function Cut(s: Text, at: nat, bisects: bool): Halves
    requires at <= |s| && (bisects ==> at < |s|)
  {
    if bisects then Halves(s[..at] + [Replacement], [Replacement] + s[at + 1..], false) else Halves(s[..at], s[at..], true)
  }

  ghost predicate IsSplit(s: Text, offset: nat, h: Halves) {
    if offset >= Units(s) then h == Halves(s, [], true)
    else exists at, bisects :: Boundary(s, at, offset, bisects) && h == Cut(s, at, bisects)
  }

  lemma {:induction false} BoundaryUnique(s: Text, a: nat, p: bool, b: nat, q: bool, target: nat)
    requires Boundary(s, a, target, p) && Boundary(s, b, target, q)
    ensures a == b && p == q
  {
    if a < b { UnitsGrow(s, a + 1, b); }
    if b < a { UnitsGrow(s, b + 1, a); }
  }

  /** There is one way to split. */
  lemma {:induction false} SplitUnique(s: Text, offset: nat, h: Halves, g: Halves)
    requires IsSplit(s, offset, h) && IsSplit(s, offset, g)
    ensures h == g
  {
    if offset < Units(s) {
      var a: nat, p :| Boundary(s, a, offset, p) && h == Cut(s, a, p);
      var b: nat, q :| Boundary(s, b, offset, q) && g == Cut(s, b, q);
      BoundaryUnique(s, a, p, b, q, offset);
    }
  }

  lemma {:induction false} UnitsAround(s: Text, a: nat)
    requires a <= |s|
    ensures Units(s[..a]) == UnitsTo(s, a) && Units(s[a..]) == Units(s) - UnitsTo(s, a)
  {
    UnitsOfPart(s, 0, a, a);
    UnitsOfPart(s, a, |s|, |s| - a);
    assert s[0..a] == s[..a] && s[a..|s|] == s[a..];
  }

  lemma {:induction false} UnitsBesides(a: Text, c: int)
    ensures Units(a + [c]) == Units(a) + Width(c) == Units([c] + a)
  {
    UnitsOfConcat(a, [c], 1);
    UnitsOfConcat([c], a, |a|);
    assert UnitsTo([c], 1) == UnitsTo([c], 0) + Width(c);
  }

  /** The pieces have exactly the units asked for, also when a pair is cut; they are the
      text itself exactly if none is. */
  lemma {:induction false} SplitLengths(s: Text, offset: nat, h: Halves)
    requires IsSplit(s, offset, h) && offset <= Units(s)
    ensures Units(h.left) == offset && Units(h.right) == Units(s) - offset && (h.shared ==> h.left + h.right == s)
  {
    if offset < Units(s) {
      var a: nat, p :| Boundary(s, a, offset, p) && h == Cut(s, a, p);
      if p { CutPair(s, a); } else { UnitsAround(s, a); }
    }
  }

  lemma {:induction false} CutPair(s: Text, a: nat)
    requires a < |s| && Width(s[a]) == 2
    ensures Units(s[..a] + [Replacement]) == UnitsTo(s, a) + 1 && Units([Replacement] + s[a + 1..]) == Units(s) - UnitsTo(s, a) - 1
  {
    UnitsAround(s, a);
    UnitsAround(s, a + 1);
    UnitsBesides(s[..a], Replacement);
    UnitsBesides(s[a + 1..], Replacement);
  }

  // ---------------------------------------------------------------- the UTF-16 and UTF-8 forms

  /** The code units of a code point: itself, or a surrogate pair. */
  function Code(c: int): seq<int> {
    if c < 0x1_0000 then [c] else [0xd800 + (c - 0x1_0000) / 0x400, 0xdc00 + (c - 0x1_0000) % 0x400]
  }

  function CodesTo(s: Text, n: nat): seq<int>
    requires n <= |s|
  {
    if n == 0 then [] else CodesTo(s, n - 1) + Code(s[n - 1])
  }

  function Codes(s: Text): seq<int> { CodesTo(s, |s|) }

  ghost predicate Proper(s: Text) {
    forall i {:trigger s[i]} :: 0 <= i < |s| ==> Utf8Text.Scalar(s[i])
  }

  function EncodedTo(s: Text, n: nat): seq<VarInts.Byte>
    requires n <= |s| && Proper(s)
  {
    if n == 0 then [] else EncodedTo(s, n - 1) + Utf8Text.Encode(s[n - 1])
  }

  /** The lengths are those of the two encodings. */
  lemma {:induction false} LengthsAre(s: Text, n: nat)
    requires n <= |s| && Proper(s)
    ensures UnitsTo(s, n) == |CodesTo(s, n)| && BytesTo(s, n) == |EncodedTo(s, n)|
  {
    if n > 0 { LengthsAre(s, n - 1); }
  }

  lemma {:induction false} CodesOfConcat(a: Text, b: Text, n: nat)
    requires n <= |a| + |b|
    ensures n <= |a| ==> CodesTo(a + b, n) == CodesTo(a, n)
    ensures n >= |a| ==> CodesTo(a + b, n) == Codes(a) + CodesTo(b, n - |a|)
  {
    if n > 0 { CodesOfConcat(a, b, n - 1); }
  }

  lemma {:induction false} CodesAround(a: Text, b: Text)
    ensures Codes(a + b) == Codes(a) + Codes(b)
  {
    CodesOfConcat(a, b, |a| + |b|);
  }

  lemma {:induction false} CodesOne(c: int)
    ensures Codes([c]) == Code(c)
  {
    assert CodesTo([c], 1) == CodesTo([c], 0) + Code(c);
  }

  predicate High(u: int) { 0xd800 <= u < 0xdc00 }

  /** Between the two units of a surrogate pair. */
  predicate InPair(u: seq<int>, offset: nat) {
    0 < offset < |u| && High(u[offset - 1])
  }

  lemma {:induction false} NotInPair(a: Text, b: Text)
    requires Proper(a)
    ensures !InPair(Codes(a) + Codes(b), |Codes(a)|)
  {
    if a != [] {
      var c := a[|a| - 1];
      assert Codes(a) == CodesTo(a, |a| - 1) + Code(c);
      assert Utf8Text.Scalar(c);
    }
  }

  lemma {:induction false} PairCut(s: Text, a: nat)
    requires a < |s| && Proper(s) && s[a] >= 0x1_0000
    ensures var u, n := Codes(s), |CodesTo(s, a)| + 1;
            && InPair(u, n) && Codes(s[..a]) == u[..n - 1] && Codes(s[a + 1..]) == u[n + 1..]
  {
    var c := s[a];
    assert Utf8Text.Scalar(c);
    assert s == s[..a] + ([c] + s[a + 1..]);
    CodesAround(s[..a], [c] + s[a + 1..]);
    CodesAround([c], s[a + 1..]);
    CodesOne(c);
    CodesOfConcat(s[..a], s[a..], a);
    assert s[..a] + s[a..] == s;
  }

  /** The code units before the offset and from there on are those of the two halves; only
      where the offset is inside a surrogate pair both sides get U+FFFD for it. */
  ghost predicate Divides(u: seq<int>, offset: nat, h: Halves) {
    if InPair(u, offset) then !h.shared && Codes(h.left) == u[..offset - 1] + [0xfffd] && Codes(h.right) == [0xfffd] + u[offset + 1..]
    else offset <= |u| && h.shared && Codes(h.left) == u[..offset] && Codes(h.right) == u[offset..]
  }

  lemma {:induction false} DividesPair(s: Text, a: nat, offset: nat)
    requires Proper(s) && Boundary(s, a, offset, true)
    ensures Divides(Codes(s), offset, Cut(s, a, true))
  {
    LengthsAre(s, a);
    PairCut(s, a);
    CodesAround(s[..a], [0xfffd]);
    CodesAround([0xfffd], s[a + 1..]);
    CodesOne(0xfffd);
  }

  lemma {:induction false} DividesPlain(s: Text, a: nat, offset: nat)
    requires Proper(s) && Boundary(s, a, offset, false)
    ensures Divides(Codes(s), offset, Cut(s, a, false))
  {
    LengthsAre(s, a);
    CodesAround(s[..a], s[a..]);
    CodesOfConcat(s[..a], s[a..], a);
    assert s[..a] + s[a..] == s;
    NotInPair(s[..a], s[a..]);
  }

  lemma {:induction false} SplitCodes(s: Text, offset: nat, h: Halves)
    requires IsSplit(s, offset, h) && Proper(s) && offset <= |Codes(s)|
    ensures Divides(Codes(s), offset, h)
  {
    LengthsAre(s, |s|);
    if offset < Units(s) {
      var a: nat, p :| Boundary(s, a, offset, p) && h == Cut(s, a, p);
      if p { DividesPair(s, a, offset); } else { DividesPlain(s, a, offset); }
    }
  }

  // ---------------------------------------------------------------- the plain scan

  /** On from character `from`, which stands at or before the target. */
  method Walk(s: Text, from: nat, start: nat, target: nat) returns (at: nat, bisects: bool)
    requires from <= |s| && start == UnitsTo(s, from) && start <= target < Units(s)
    ensures at < |s| && Boundary(s, at, target, bisects)
  {
    var units := start;
    at := from;
    while at < |s|
      invariant from <= at <= |s| && units == UnitsTo(s, at) && units <= target
    {
      if units == target {
        return at, false;
      }
      var width := Width(s[at]);
      if units + width > target {
        return at, true;
      }
      units, at := units + width, at + 1;
    }
    bisects := false;
  }

  /** `splitStringUTF16AtBoundary` */
  method PlainSplit(s: Text, offset: nat) returns (h: Halves)
    ensures IsSplit(s, offset, h)
  {
    var length := Length(s);
    if offset >= length {
      return Halves(s, [], true);
    }
    var at, bisects := Walk(s, 0, 0, offset);
    h := Cut(s, at, bisects);
  }

  /** `stringLength` */
  method Length(s: Text) returns (n: nat)
    ensures n == Units(s)
  {
    n := 0;
    for i := 0 to |s|
      invariant n == UnitsTo(s, i)
    {
      n := n + Width(s[i]);
    }
  }

  // ---------------------------------------------------------------- the sparse index

  const Stride: nat := 64
  const Threshold: nat := 128

  datatype Sample = Sample(units: nat, at: nat)

  datatype Index = Index(source: Text, length: nat, samples: seq<Sample>)

  predicate Sampled(s: Text, x: Sample) {
    x.at <= |s| && x.units == UnitsTo(s, x.at)
  }

  /** The samples are right, and none is behind `at`. */
  ghost predicate Samples(s: Text, samples: seq<Sample>, at: nat) {
    && samples != [] && samples[0] == Sample(0, 0)
    && forall i {:trigger Sampled(s, samples[i])} :: 0 <= i < |samples| ==> Sampled(s, samples[i]) && samples[i].at <= at
  }

  lemma {:induction false} OneSampleMore(s: Text, samples: seq<Sample>, at: nat, x: Sample)
    requires Samples(s, samples, at) && Sampled(s, x) && at <= x.at
    ensures Samples(s, samples + [x], x.at)
  {
    var all := samples + [x];
    forall i | 0 <= i < |all| ensures Sampled(s, all[i]) && all[i].at <= x.at { if i < |samples| { assert Sampled(s, samples[i]); } }
  }

  lemma {:induction false} SamplesLater(s: Text, samples: seq<Sample>, a: nat, b: nat)
    requires Samples(s, samples, a) && a <= b
    ensures Samples(s, samples, b)
  {
    forall i | 0 <= i < |samples| ensures Sampled(s, samples[i]) && samples[i].at <= b { assert Sampled(s, samples[i]); }
  }

  ghost predicate CloseBy(samples: seq<Sample>, i: nat)
    requires i + 1 < |samples|
  {
    samples[i + 1].units <= samples[i].units + 65
  }

  /** No two neighbours are more than 65 units apart: 64, and one more where a surrogate pair
      crosses the mark. */
  ghost predicate Dense(samples: seq<Sample>) {
    forall i {:trigger CloseBy(samples, i)} :: 0 <= i < |samples| - 1 ==> CloseBy(samples, i)
  }

  lemma {:induction false} DenseMore(samples: seq<Sample>, x: Sample)
    requires samples != [] && Dense(samples) && x.units <= samples[|samples| - 1].units + 65
    ensures Dense(samples + [x])
  {
    forall i | 0 <= i < |samples| ensures CloseBy(samples + [x], i) { if i < |samples| - 1 { assert CloseBy(samples, i); } }
  }

  ghost predicate Good(index: Index) {
    && index.length == Units(index.source) && Samples(index.source, index.samples, |index.source|)
    && Dense(index.samples) && index.samples[|index.samples| - 1].at == |index.source|
  }

  /** `buildContentStringUTF16Index`: a sample every 64 units, for texts of 128 and more. */
  method Build(source: Text) returns (index: Option<Index>)
    ensures index.Some? <==> Units(source) >= Threshold
    ensures index.Some? ==> Good(index.value) && index.value.source == source
  {
    var samples := [Sample(0, 0)];
    var units, next := 0, Stride;
    for at := 0 to |source|
      invariant units == UnitsTo(source, at) && Samples(source, samples, at) && Dense(samples)
      invariant next - 64 <= samples[|samples| - 1].units && units <= next + 1
    {
      if units >= next {
        OneSampleMore(source, samples, at, Sample(units, at));
        DenseMore(samples, Sample(units, at));
        samples := samples + [Sample(units, at)];
        while next <= units
          invariant next <= units + 64
        {
          next := next + Stride;
        }
      }
      SamplesLater(source, samples, at, at + 1);
      units := units + Width(source[at]);
    }
    if units < Threshold {
      return None;
    }
    OneSampleMore(source, samples, |source|, Sample(units, |source|));
    DenseMore(samples, Sample(units, |source|));
    if samples[|samples| - 1].at != |source| {
      samples := samples + [Sample(units, |source|)];
    }
    index := Some(Index(source, units, samples));
  }

  /** A sample at or before a number of units, or a place in the text. */
  method SampleBefore(index: Index, target: nat, byPlace: bool) returns (x: Sample)
    requires Good(index)
    ensures Sampled(index.source, x) && (if byPlace then x.at else x.units) <= target
    ensures byPlace && target <= |index.source| ==> UnitsTo(index.source, target) <= x.units + 65
    ensures !byPlace && target <= index.length ==> target <= x.units + 65
  {
    var low, high := 0, |index.samples|;
    while low < high
      invariant 0 <= low <= high <= |index.samples|
      invariant low > 0 ==> (if byPlace then index.samples[low - 1].at else index.samples[low - 1].units) <= target
      invariant high < |index.samples| ==> (if byPlace then index.samples[high].at else index.samples[high].units) > target
    {
      var middle := (low + high) / 2;
      if (if byPlace then index.samples[middle].at else index.samples[middle].units) <= target {
        low := middle + 1;
      } else {
        high := middle;
      }
    }
    assert Sampled(index.source, index.samples[if low > 0 then low - 1 else 0]);
    x := index.samples[low - 1];
    if low < |index.samples| {
      assert CloseBy(index.samples, low - 1) && Sampled(index.source, index.samples[low]);
      if byPlace { UnitsGrow(index.source, target, index.samples[low].at); }
    } else if byPlace && target <= |index.source| {
      UnitsGrow(index.source, target, |index.source|);
    }
  }

  /** `utf16OffsetAtByte` */
  method UnitsAt(index: Index, place: nat) returns (units: nat)
    requires Good(index) && place <= |index.source|
    ensures units == UnitsTo(index.source, place)
  {
    var x := SampleBefore(index, place, true);
    units := x.units;
    for at := x.at to place
      invariant units == UnitsTo(index.source, at)
    {
      units := units + Width(index.source[at]);
    }
  }

  /** `byteOffsetAtUTF16` */
  method PlaceOf(index: Index, target: nat) returns (at: nat, bisects: bool)
    requires Good(index) && target < index.length
    ensures at < |index.source| && Boundary(index.source, at, target, bisects)
  {
    if target == 0 {
      return 0, false;
    }
    var x := SampleBefore(index, target, false);
    at, bisects := Walk(index.source, x.at, x.units, target);
  }

  /** A boundary of a fragment, seen in the whole text. */
  lemma {:induction false} BoundaryOfPart(s: Text, a: nat, b: nat, offset: nat, at: nat, bisects: bool)
    requires a <= b <= |s| && offset < Units(s[a..b]) && at < |s| && Boundary(s, at, UnitsTo(s, a) + offset, bisects)
    ensures a <= at < b && Boundary(s[a..b], at - a, offset, bisects)
  {
    UnitsOfPart(s, a, b, b - a);
    if at < a { UnitsGrow(s, at + 1, a); }
    if at >= b { UnitsGrow(s, b, at); }
    UnitsOfPart(s, a, b, at - a);
  }

  /** `split` of the fragment `start..end` of the indexed text. */
  method IndexedSplit(index: Index, start: nat, end: nat, offset: nat, length: nat) returns (h: Halves)
    requires Good(index) && start <= end <= |index.source| && length == Units(index.source[start..end])
    ensures IsSplit(index.source[start..end], offset, h)
  {
    var fragment := index.source[start..end];
    if offset >= length {
      return Halves(fragment, [], true);
    }
    var base := UnitsAt(index, start);
    UnitsOfPart(index.source, start, end, end - start);
    UnitsGrow(index.source, end, |index.source|);
    var at, bisects := PlaceOf(index, base + offset);
    BoundaryOfPart(index.source, start, end, offset, at, bisects);
    h := Cut(fragment, at - start, bisects);
  }

  /** `spliceWithLengthIntoBacking`: whichever way is taken, the split is the plain one. */
  method Splice(value: Text, offset: nat, length: nat, bytes: nat, index: Option<Index>, start: nat) returns (h: Halves)
    requires length == Units(value) && bytes == BytesTo(value, |value|)
    requires index.Some? ==> Good(index.value) && start + |value| <= |index.value.source| && index.value.source[start..start + |value|] == value
    ensures IsSplit(value, offset, h)
  {
    AsciiWidth(value, |value|);
    if bytes == length {
      var at := if offset > length then length else offset;
      AsciiPrefix(value, at);
      h := Halves(value[..at], value[at..], true);
      assert offset < length ==> Boundary(value, at, offset, false);
      assert h == Cut(value, at, false);
      return;
    }
    if offset <= 8 || (index.None? && length < Threshold) {
      h := PlainSplit(value, offset);
      return;
    }
    var use := index;
    var from := start;
    if use.None? {
      use := Build(value);
      from := 0;
      assert value[0..|value|] == value;
    }
    if use.Some? {
      h := IndexedSplit(use.value, from, from + |value|, offset, length);
    } else {
      h := PlainSplit(value, offset);
    }
  }

  lemma {:induction false} AsciiPrefix(s: Text, n: nat)
    requires n <= |s| && forall i :: 0 <= i < |s| ==> s[i] < 0x80
    ensures UnitsTo(s, n) == n
  {
    AsciiWidth(s, n);
  }
}

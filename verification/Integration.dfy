/** What the conflict scan has to know about the document order. */
module Integration {
  import opened Wrappers
  import opened ItemOrder

  // ---------------------------------------------------------------- below an origin

  /** Number of proper ancestors. */
  function Depth(x: Item): nat {
    |OriginPath(x)| - 1
  }

  /** `y` lies strictly below the origin of `x` (everything does, when `x` has none). */
  predicate Below(x: Item, y: Item) {
    && Depth(x) <= Depth(y)
    && OriginPath(y)[..Depth(x)] == OriginPath(x)[..Depth(x)]
  }

  /** The sibling of `x` whose subtree holds `y`. */
  function Top(x: Item, y: Item): Item
    requires Below(x, y)
  {
    OriginPath(y)[Depth(x)]
  }

  lemma {:induction false} TopIsSibling(x: Item, y: Item)
    requires Below(x, y)
    ensures Top(x, y).origin == x.origin
    ensures IsOn(Top(x, y), y)
    ensures Below(x, Top(x, y)) && Top(x, Top(x, y)) == Top(x, y)
  {
    var d := Depth(x);
    OriginPathPrefix(y, d);
    OriginPathPrefix(x, d);
    assert OriginPath(Top(x, y)) == OriginPath(y)[..d + 1];
    assert OriginPath(Top(x, y))[..d] == OriginPath(y)[..d];
    if d > 0 {
      OriginPathStep(y, d);
      OriginPathStep(x, d);
      assert OriginPath(y)[..d][d - 1] == OriginPath(x)[..d][d - 1];
    }
  }

  lemma {:induction false} SiblingIsBelow(x: Item, s: Item)
    requires s.origin == x.origin
    ensures Below(x, s) && Top(x, s) == s
  {
  }

  /** An ancestor comes before its descendants. */
  lemma {:induction false} AncestorBefore(y: Item, k: nat)
    requires k < |OriginPath(y)|
    ensures OriginPath(y)[k] == y || Before(OriginPath(y)[k], y)
  {
    var p := OriginPath(y);
    OriginPathPrefix(y, k);
    assert p[..k + 1][..k + 1] == p[..k + 1];
    LexBeforeAt(p[..k + 1], p, k + 1);
    assert p[|p| - 1] == y;
  }

  /** Inside the origin's subtree, `x` compares with `y` as with `y`'s top. */
  lemma {:induction false} CompareBelow(x: Item, y: Item)
    requires Below(x, y) && Top(x, y) != x
    ensures Before(y, x) == SiblingBefore(Top(x, y), x)
    ensures Before(x, y) == SiblingBefore(x, Top(x, y))
  {
    var d := Depth(x);
    LexBeforeAt(OriginPath(y), OriginPath(x), d);
    LexBeforeAt(OriginPath(x), OriginPath(y), d);
    assert OriginPath(x)[d..] == [x];
    assert OriginPath(y)[d..][0] == Top(x, y);
  }

  /** Outside the origin's subtree, what follows the origin follows everything below it. */
  lemma {:induction false} CompareOutside(x: Item, y: Item, z: Item)
    requires x.origin.Some? && !Below(x, y) && Before(x.origin.value, y) && Below(x, z)
    ensures Before(z, y)
  {
    var l := x.origin.value;
    var p, q, r := OriginPath(l), OriginPath(y), OriginPath(z);
    assert OriginPath(x) == p + [x] && OriginPath(x)[..|p|] == p;
    var n := Common(p, q);
    LexBeforeAt(p, q, n);
    assert p[..|p|] == p;
    assert n < |p| && n < |q|;
    assert r[..|p|] == p;
    assert r[..n] == r[..|p|][..n] == p[..n] && r[n] == r[..|p|][n];
    LexBeforeAt(r, q, n);
    assert r[n..][0] == p[n] && p[n..][0] == p[n];
  }

  // ---------------------------------------------------------------- right paths, one item longer

  lemma {:induction false} MinClientAppend(q: seq<Item>, c: Item)
    requires q != []
    ensures MinClient(q + [c]) == if MinClient(q) < c.client then MinClient(q) else c.client
  {
    if |q| > 1 {
      MinClientAppend(q[1..], c);
      assert (q + [c])[1..] == q[1..] + [c];
    } else {
      assert (q + [c])[1..] == [c];
    }
  }

  lemma {:induction false} LowClientGoesFirst(p: seq<Item>, q: seq<Item>, c: Item)
    requires PathBefore(p, q) && p[|p| - 1].client < c.client
    ensures PathBefore(p, q + [c])
  {
    MinClientIsLeast(p, |p| - 1);
    if q == [] {
      MinPathBefore(p, [c]);
      assert q + [c] == [c];
    } else if p[0] == q[0] {
      assert |p| > 1;
      LowClientGoesFirst(p[1..], q[1..], c);
      assert (q + [c])[1..] == q[1..] + [c];
    } else {
      MinClientAppend(q, c);
    }
  }

  lemma {:induction false} LowClientWitness(p: seq<Item>, q: seq<Item>, c: Item) returns (k: nat)
    requires PathBefore(p, q + [c]) && c !in p
    ensures k < |p| && p[k].client < c.client && PathBefore(p[..k + 1], q)
  {
    if q == [] {
      assert q + [c] == [c];
      k := MinClientIsMember(p);
    } else if p[0] == q[0] {
      assert (q + [c])[1..] == q[1..] + [c];
      k := LowClientWitness(p[1..], q[1..], c);
      assert p[1..][..k + 1] == p[..k + 2][1..];
      k := k + 1;
    } else {
      k := MinClientIsMember(p);
      MinClientAppend(q, c);
      MinClientIsLeast(p[..k + 1], k);
    }
  }

  /** Path of the right sibling, or nothing. */
  function RightTail(x: Item): seq<Item> {
    if RightSibling(x).Some? then RightPath(x.rightOrigin.value) else []
  }

  /** `s` lies before the right origin of `x`, as far as siblings can tell. */
  predicate BeforeRight(s: Item, x: Item) {
    PathBefore(RightPath(s), RightTail(x))
  }

  /** A sibling with a smaller client left of the right origin comes before `x`. */
  lemma {:induction false} SmallerClientFirst(s: Item, x: Item)
    requires s.client < x.client && BeforeRight(s, x)
    ensures SiblingBefore(s, x)
  {
    LowClientGoesFirst(RightPath(s), RightTail(x), x);
  }

  /** Conversely, a sibling before `x` owes it to such a sibling further right. */
  lemma {:induction false} SmallerClientWitness(t: Item, x: Item) returns (s: Item)
    requires SiblingBefore(t, x) && x !in RightPath(t)
    ensures s in RightPath(t) && s.client < x.client && BeforeRight(s, x)
    ensures s.origin == t.origin && (s == t || SiblingBefore(t, s))
  {
    var k := LowClientWitness(RightPath(t), RightTail(x), x);
    s := RightPath(t)[k];
    RightPathPrefix(t, k);
    OnRightPath(t, k);
  }

  lemma {:induction false} OnRightPath(t: Item, k: nat)
    requires k < |RightPath(t)|
    ensures RightPath(t)[k] == t || SiblingBefore(t, RightPath(t)[k])
  {
    RightPathPrefix(t, k);
    var p := RightPath(t);
    assert p[..k + 1][..k + 1] == p[..k + 1];
    PathBeforeAt(p, p[..k + 1], k + 1);
  }

  /** Two siblings with the same right sibling are ordered by client. */
  lemma {:induction false} SameRight(x: Item, o: Item)
    requires RightTail(x) == RightTail(o) && x.client < o.client
    ensures SiblingBefore(x, o)
  {
    var q := RightTail(x);
    assert RightPath(x) == q + [x] && RightPath(o) == q + [o];
    assert (q + [x])[..|q|] == q && (q + [o])[..|q|] == q;
    PathBeforeAt(q + [x], q + [o], |q|);
    assert (q + [x])[|q|..] == [x] && (q + [o])[|q|..] == [o];
  }

  /** A sibling comes before its own right sibling. */
  lemma {:induction false} BeforeOwnRight(x: Item)
    requires RightSibling(x).Some?
    ensures SiblingBefore(x, x.rightOrigin.value)
  {
    var q := RightTail(x);
    assert RightPath(x) == q + [x];
    assert (q + [x])[..|q|] == q && q[..|q|] == q;
    PathBeforeAt(q + [x], q, |q|);
  }

  lemma {:induction false} SiblingsCompare(a: Item, b: Item)
    requires a.origin == b.origin && a != b
    ensures Before(a, b) == SiblingBefore(a, b)
  {
    SiblingIsBelow(b, a);
    CompareBelow(b, a);
  }
}

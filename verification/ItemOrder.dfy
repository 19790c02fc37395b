/** The document order of list items, as a closed form.

    An item of the shared list is created between two neighbours of its
    creator's list: `origin` on its left and `rightOrigin` on its right.  The
    conflict scan of `integrateWithScratch` never mentions an order, but every
    list it produces is sorted by the relation `Before` of this module, which
    depends on the two items alone and not on the list that holds them.

    - The origin references form a tree, and the list is a preorder of it.
    - Children of one origin may point at each other with `rightOrigin`, which
      forms a second tree (`RightPath`).  Two children are compared by the
      smallest client id on the part of their right paths they do not share.
 */
module ItemOrder {
  import opened Wrappers

  /** One unit of list content.  The two references are unfolded to the items
      they name, so that everything below is a function of the item alone. */
  datatype Item = Item(client: int, clock: nat, origin: Option<Item>, rightOrigin: Option<Item>)

  // ---------------------------------------------------------------- paths

  /** From the outermost ancestor in the origin tree down to `x` itself. */
  function OriginPath(x: Item): seq<Item>
    decreases x
  {
    (if x.origin.Some? then OriginPath(x.origin.value) else []) + [x]
  }

  /** The right origin, when it is a child of the same origin. */
  function RightSibling(x: Item): Option<Item> {
    if x.rightOrigin.Some? && x.rightOrigin.value.origin == x.origin then x.rightOrigin else None
  }

  /** From the rightmost sibling that `x` transitively points at down to `x`. */
  function RightPath(x: Item): seq<Item>
    decreases x
  {
    (if RightSibling(x).Some? then RightPath(x.rightOrigin.value) else []) + [x]
  }

  /** `x` lies on the origin path of `y` (an ancestor, or `y` itself). */
  predicate IsOn(x: Item, y: Item) {
    x in OriginPath(y)
  }

  // ---------------------------------------------------------------- the two orders

  function MinClient(p: seq<Item>): int
    requires p != []
  {
    if |p| == 1 then p[0].client
    else
      var m := MinClient(p[1..]);
      if p[0].client < m then p[0].client else m
  }

  /** Order of right paths: drop what is shared; nothing left means rightmost;
      otherwise the smaller minimum client id comes first. */
  predicate PathBefore(p: seq<Item>, q: seq<Item>) {
    if p == [] then false
    else if q == [] then true
    else if p[0] == q[0] then PathBefore(p[1..], q[1..])
    else MinClient(p) < MinClient(q)
  }

  predicate SiblingBefore(a: Item, b: Item) {
    PathBefore(RightPath(a), RightPath(b))
  }

  /** Preorder: an ancestor first, otherwise the siblings where the paths part. */
  predicate LexBefore(p: seq<Item>, q: seq<Item>) {
    if q == [] then false
    else if p == [] then true
    else if p[0] == q[0] then LexBefore(p[1..], q[1..])
    else SiblingBefore(p[0], q[0])
  }

  /** The document order. */
  predicate Before(a: Item, b: Item) {
    LexBefore(OriginPath(a), OriginPath(b))
  }

  // ---------------------------------------------------------------- histories

  ghost predicate RefsIn(s: set<Item>, x: Item) {
    && (x.origin.Some? ==> x.origin.value in s)
    && (x.rightOrigin.Some? ==> x.rightOrigin.value in s)
  }

  ghost predicate Closed(s: set<Item>) {
    forall x {:trigger RefsIn(s, x)} :: x in s ==> RefsIn(s, x)
  }

  predicate SameId(x: Item, y: Item) {
    x.client == y.client && x.clock == y.clock
  }

  ghost predicate UniqueIds(s: set<Item>) {
    forall x, y {:trigger SameId(x, y)} :: x in s && y in s && SameId(x, y) ==> x == y
  }

  /** `u` is an earlier child of `x`'s origin by `x`'s client. */
  predicate EarlierTwin(u: Item, x: Item) {
    u.origin == x.origin && u.client == x.client && u.clock < x.clock
  }

  /** What creating `x` between two neighbours leaves behind for good.
      The right origin lies after the origin; it is a child of the origin or not
      below it at all; and it is not after any earlier child of the same origin
      by the same client. */
  ghost predicate WellCreated(s: set<Item>, x: Item) {
    && (x.rightOrigin.Some? && x.origin.Some? ==> Before(x.origin.value, x.rightOrigin.value))
    && (x.rightOrigin.Some? && RightSibling(x).None? ==> x.origin.Some? && !IsOn(x.origin.value, x.rightOrigin.value))
    && (forall u {:trigger EarlierTwin(u, x)} :: u in s && EarlierTwin(u, x) ==>
          RightSibling(x).Some? && (x.rightOrigin.value == u || SiblingBefore(x.rightOrigin.value, u)))
  }

  ghost predicate ValidHistory(s: set<Item>) {
    && Closed(s)
    && UniqueIds(s)
    && forall x {:trigger WellCreated(s, x)} :: x in s ==> WellCreated(s, x)
  }

  // ---------------------------------------------------------------- path order is a strict order

  lemma {:induction false} MinClientIsMember(p: seq<Item>) returns (k: nat)
    requires p != []
    ensures k < |p| && p[k].client == MinClient(p)
  {
    if |p| == 1 || p[0].client < MinClient(p[1..]) {
      k := 0;
    } else {
      k := MinClientIsMember(p[1..]);
      k := k + 1;
    }
  }

  lemma {:induction false} MinClientIsLeast(p: seq<Item>, k: nat)
    requires k < |p|
    ensures MinClient(p) <= p[k].client
  {
    if k > 0 { MinClientIsLeast(p[1..], k - 1); }
  }

  lemma {:induction false} MinClientPrefix(p: seq<Item>, n: nat)
    requires 0 < n <= |p|
    ensures MinClient(p) <= MinClient(p[..n])
  {
    var k := MinClientIsMember(p[..n]);
    MinClientIsLeast(p, k);
  }

  lemma {:induction false} PathBeforeMin(p: seq<Item>, q: seq<Item>)
    requires q != [] && PathBefore(p, q)
    ensures p != [] && MinClient(p) <= MinClient(q)
  {
    if p[0] == q[0] && q[1..] != [] {
      PathBeforeMin(p[1..], q[1..]);
    }
  }

  lemma {:induction false} MinPathBefore(p: seq<Item>, q: seq<Item>)
    requires p != [] && q != [] && MinClient(p) < MinClient(q)
    ensures PathBefore(p, q)
  {
    if p[0] == q[0] {
      if q[1..] != [] { MinPathBefore(p[1..], q[1..]); }
    }
  }

  lemma {:induction false} PathBeforeTransitive(p: seq<Item>, q: seq<Item>, r: seq<Item>)
    requires PathBefore(p, q) && PathBefore(q, r)
    ensures PathBefore(p, r)
  {
    if r == [] {
    } else if p[0] == q[0] == r[0] {
      PathBeforeTransitive(p[1..], q[1..], r[1..]);
    } else if p[0] == r[0] {
      MinPathBefore(p, r);
    } else {
      PathBeforeMin(p, q);
      PathBeforeMin(q, r);
    }
  }

  lemma {:induction false} PathBeforeAsymmetric(p: seq<Item>, q: seq<Item>)
    requires PathBefore(p, q)
    ensures !PathBefore(q, p)
  {
    if q != [] && p[0] == q[0] { PathBeforeAsymmetric(p[1..], q[1..]); }
  }

  // ---------------------------------------------------------------- where two paths part

  /** Length of the longest common prefix. */
  function Common(p: seq<Item>, q: seq<Item>): (n: nat)
    ensures n <= |p| && n <= |q| && p[..n] == q[..n]
    ensures n < |p| && n < |q| ==> p[n] != q[n]
  {
    if p == [] || q == [] || p[0] != q[0] then 0 else 1 + Common(p[1..], q[1..])
  }

  lemma {:induction false} PathBeforeAt(p: seq<Item>, q: seq<Item>, n: nat)
    requires n <= |p| && n <= |q| && p[..n] == q[..n]
    ensures PathBefore(p, q) == PathBefore(p[n..], q[n..])
  {
    if n > 0 {
      assert p[0] == p[..n][0] && q[0] == q[..n][0];
      assert p[1..][..n - 1] == p[..n][1..] && q[1..][..n - 1] == q[..n][1..];
      PathBeforeAt(p[1..], q[1..], n - 1);
      assert p[1..][n - 1..] == p[n..] && q[1..][n - 1..] == q[n..];
    } else {
      assert p[0..] == p && q[0..] == q;
    }
  }

  lemma {:induction false} LexBeforeAt(p: seq<Item>, q: seq<Item>, n: nat)
    requires n <= |p| && n <= |q| && p[..n] == q[..n]
    ensures LexBefore(p, q) == LexBefore(p[n..], q[n..])
  {
    if n > 0 {
      assert p[0] == p[..n][0] && q[0] == q[..n][0];
      assert p[1..][..n - 1] == p[..n][1..] && q[1..][..n - 1] == q[..n][1..];
      LexBeforeAt(p[1..], q[1..], n - 1);
      assert p[1..][n - 1..] == p[n..] && q[1..][n - 1..] == q[n..];
    } else {
      assert p[0..] == p && q[0..] == q;
    }
  }

  lemma {:induction false} RightPathPrefix(x: Item, k: nat)
    requires k < |RightPath(x)|
    ensures RightPath(RightPath(x)[k]) == RightPath(x)[..k + 1]
    ensures RightPath(x)[k].origin == x.origin
    decreases x
  {
    if k < |RightPath(x)| - 1 {
      RightPathPrefix(x.rightOrigin.value, k);
    }
  }

  /** Each item on a right path has the item before it as its right sibling. */
  lemma {:induction false} RightPathStep(x: Item, k: nat)
    requires k < |RightPath(x)|
    ensures RightSibling(RightPath(x)[k]) == if k == 0 then None else Some(RightPath(x)[k - 1])
    ensures RightPath(x)[k].origin == x.origin
    decreases x
  {
    if k < |RightPath(x)| - 1 { RightPathStep(x.rightOrigin.value, k); }
  }

  lemma {:induction false} OriginPathPrefix(x: Item, k: nat)
    requires k < |OriginPath(x)|
    ensures OriginPath(OriginPath(x)[k]) == OriginPath(x)[..k + 1]
    decreases x
  {
    if k < |OriginPath(x)| - 1 {
      OriginPathPrefix(x.origin.value, k);
    }
  }

  /** Neighbours on an origin path are parent and child. */
  lemma {:induction false} OriginPathStep(x: Item, k: nat)
    requires 0 < k < |OriginPath(x)|
    ensures OriginPath(x)[k].origin == Some(OriginPath(x)[k - 1])
    decreases x
  {
    if k < |OriginPath(x)| - 1 { OriginPathStep(x.origin.value, k); }
  }

  lemma {:induction false} PathsStayInside(s: set<Item>, x: Item)
    requires Closed(s) && x in s
    ensures forall y :: y in RightPath(x) ==> y in s
    ensures forall y :: y in OriginPath(x) ==> y in s
    decreases x
  {
    assert RefsIn(s, x);
    if x.rightOrigin.Some? { PathsStayInside(s, x.rightOrigin.value); }
    if x.origin.Some? { PathsStayInside(s, x.origin.value); }
  }

  /** An item on both right paths lies on their common prefix. */
  lemma {:induction false} SharedIsCommon(a: Item, b: Item, i: nat, j: nat)
    requires i < |RightPath(a)| && j < |RightPath(b)| && RightPath(a)[i] == RightPath(b)[j]
    ensures i == j && RightPath(a)[..i + 1] == RightPath(b)[..i + 1]
  {
    RightPathPrefix(a, i);
    RightPathPrefix(b, j);
    var n := Common(RightPath(a), RightPath(b));
    assert RightPath(a)[..i + 1] == RightPath(b)[..j + 1];
    assert forall k :: 0 <= k <= i ==> RightPath(a)[k] == RightPath(a)[..i + 1][k];
    assert forall k :: 0 <= k <= j ==> RightPath(b)[k] == RightPath(b)[..j + 1][k];
    assert |RightPath(a)[..i + 1]| == i + 1 && |RightPath(b)[..j + 1]| == j + 1;
  }

  // ---------------------------------------------------------------- totality

  lemma {:induction false} BranchClash(q: seq<Item>, p: seq<Item>, n: nat, j: nat, i: nat)
    requires n <= j < |q| && n <= i < |p| && q[..n] == p[..n] && q[n] != p[n]
    requires PathBefore(q[..j], p[..i + 1])
    ensures MinClient(q[n..]) < p[i].client
  {
    var q', p' := q[..j], p[..i + 1];
    assert q'[..n] == q[..n] && p'[..n] == p[..n];
    PathBeforeAt(q', p', n);
    assert q'[n..] == q[n..][..j - n] && p'[n..][i - n] == p[i];
    assert j > n && q'[n..][0] == q[n] && p'[n..][0] == p[n];
    MinClientPrefix(q[n..], j - n);
    MinClientIsLeast(p'[n..], i - n);
  }

  lemma {:induction false} PrefixesPart(q: seq<Item>, p: seq<Item>, n: nat, j: nat, i: nat)
    requires n <= j <= |q| && n <= i < |p| && (n < |q| ==> q[n] != p[n])
    ensures q[..j] != p[..i + 1]
  {
    assert p[..i + 1][n] == p[n];
    assert n < j ==> q[..j][n] == q[n];
  }

  /** What `WellCreated` says about an item on a right path, in terms of paths. */
  lemma {:induction false} TwinOnPath(s: set<Item>, b: Item, j: nat, u: Item)
    requires ValidHistory(s) && b in s && u in s
    requires j < |RightPath(b)| && EarlierTwin(u, RightPath(b)[j])
    ensures j > 0
    ensures RightPath(u) == RightPath(b)[..j] || PathBefore(RightPath(b)[..j], RightPath(u))
  {
    PathsStayInside(s, b);
    RightPathStep(b, j);
    var v := RightPath(b)[j];
    assert v in s && WellCreated(s, v);
    RightPathPrefix(b, j - 1);
  }

  /** Two branches below the parting point never have the same minimum: a client
      that owns an item on both created one of them second, at the very front
      of what it then saw, so that item is not the minimum of its branch. */
  lemma {:induction false} LaterIsNotLeast(s: set<Item>, a: Item, b: Item, n: nat, i: nat, j: nat)
    requires ValidHistory(s) && a in s && b in s && a.origin == b.origin
    requires n <= i < |RightPath(a)| && n <= j < |RightPath(b)|
    requires RightPath(a)[..n] == RightPath(b)[..n] && RightPath(a)[n] != RightPath(b)[n]
    requires RightPath(a)[i].client == RightPath(b)[j].client && RightPath(a)[i].clock < RightPath(b)[j].clock
    ensures MinClient(RightPath(b)[n..]) < RightPath(b)[j].client
  {
    PathsStayInside(s, a);
    RightPathStep(a, i);
    RightPathStep(b, j);
    TwinOnPath(s, b, j, RightPath(a)[i]);
    RightPathPrefix(a, i);
    PrefixesPart(RightPath(b), RightPath(a), n, j, i);
    BranchClash(RightPath(b), RightPath(a), n, j, i);
  }

  /** Hence the minima of the two branches differ. */
  lemma {:induction false} NoTie(s: set<Item>, a: Item, b: Item, n: nat)
    requires ValidHistory(s) && a in s && b in s && a.origin == b.origin
    requires n < |RightPath(a)| && n < |RightPath(b)|
    requires RightPath(a)[..n] == RightPath(b)[..n] && RightPath(a)[n] != RightPath(b)[n]
    ensures MinClient(RightPath(a)[n..]) != MinClient(RightPath(b)[n..])
  {
    var p, q := RightPath(a), RightPath(b);
    if MinClient(p[n..]) == MinClient(q[n..]) {
      var i := MinClientIsMember(p[n..]);
      var j := MinClientIsMember(q[n..]);
      i, j := n + i, n + j;
      PathsStayInside(s, a);
      PathsStayInside(s, b);
      assert p[i] in s && q[j] in s && (SameId(p[i], q[j]) ==> p[i] == q[j]);
      if p[i].clock < q[j].clock {
        LaterIsNotLeast(s, a, b, n, i, j);
      } else if p[i].clock > q[j].clock {
        LaterIsNotLeast(s, b, a, n, j, i);
      } else {
        SharedIsCommon(a, b, i, j);
        PrefixesPart(q, p, n, j + 1, i);
      }
    }
  }

  lemma {:induction false} SiblingTotal(s: set<Item>, a: Item, b: Item)
    requires ValidHistory(s) && a in s && b in s && a.origin == b.origin && a != b
    ensures SiblingBefore(a, b) || SiblingBefore(b, a)
  {
    var p, q := RightPath(a), RightPath(b);
    var n := Common(p, q);
    PathBeforeAt(p, q, n);
    PathBeforeAt(q, p, n);
    assert p[|p| - 1] == a && q[|q| - 1] == b;
    assert p[..|p|] == p && q[..|q|] == q;
    if n < |p| && n < |q| {
      NoTie(s, a, b, n);
    }
  }

  lemma {:induction false} SiblingAsymmetric(a: Item, b: Item)
    requires SiblingBefore(a, b)
    ensures !SiblingBefore(b, a) && a != b
  {
    PathBeforeAsymmetric(RightPath(a), RightPath(b));
  }

  // ---------------------------------------------------------------- the document order is a strict total order

  /** Where the origin paths of two items part, the two next items are siblings. */
  lemma {:induction false} PartAtSiblings(a: Item, b: Item)
    requires var n := Common(OriginPath(a), OriginPath(b)); n < |OriginPath(a)| && n < |OriginPath(b)|
    ensures var n := Common(OriginPath(a), OriginPath(b)); OriginPath(a)[n].origin == OriginPath(b)[n].origin
    ensures var n := Common(OriginPath(a), OriginPath(b)); Before(a, b) == SiblingBefore(OriginPath(a)[n], OriginPath(b)[n])
  {
    var p, q := OriginPath(a), OriginPath(b);
    var n := Common(p, q);
    LexBeforeAt(p, q, n);
    if n > 0 {
      OriginPathStep(a, n);
      OriginPathStep(b, n);
      assert p[n - 1] == p[..n][n - 1] && q[n - 1] == q[..n][n - 1];
    } else {
      OriginPathPrefix(a, 0);
      OriginPathPrefix(b, 0);
      assert OriginPath(p[0]) == [p[0]] && OriginPath(q[0]) == [q[0]];
    }
  }

  lemma {:induction false} Total(s: set<Item>, a: Item, b: Item)
    requires ValidHistory(s) && a in s && b in s && a != b
    ensures Before(a, b) || Before(b, a)
  {
    var p, q := OriginPath(a), OriginPath(b);
    var n := Common(p, q);
    LexBeforeAt(p, q, n);
    LexBeforeAt(q, p, n);
    if n < |p| && n < |q| {
      PartAtSiblings(a, b);
      PathsStayInside(s, a);
      PathsStayInside(s, b);
      SiblingTotal(s, p[n], q[n]);
    } else {
      assert p[|p| - 1] == a && q[|q| - 1] == b;
    }
  }

  lemma {:induction false} LexAsymmetric(p: seq<Item>, q: seq<Item>)
    requires LexBefore(p, q)
    ensures !LexBefore(q, p)
  {
    if p != [] {
      if p[0] == q[0] { LexAsymmetric(p[1..], q[1..]); } else { SiblingAsymmetric(p[0], q[0]); }
    }
  }

  lemma {:induction false} Asymmetric(a: Item, b: Item)
    requires Before(a, b)
    ensures !Before(b, a) && a != b
  {
    LexAsymmetric(OriginPath(a), OriginPath(b));
  }

  lemma {:induction false} LexTransitive(p: seq<Item>, q: seq<Item>, r: seq<Item>)
    requires LexBefore(p, q) && LexBefore(q, r)
    ensures LexBefore(p, r)
  {
    if p != [] && p[0] == q[0] == r[0] {
      LexTransitive(p[1..], q[1..], r[1..]);
    } else if p != [] && p[0] != q[0] && q[0] != r[0] {
      PathBeforeTransitive(RightPath(p[0]), RightPath(q[0]), RightPath(r[0]));
      if p[0] == r[0] { SiblingAsymmetric(p[0], q[0]); }
    }
  }

  /** The document order is transitive on all items, valid history or not. */
  lemma {:induction false} Transitive(a: Item, b: Item, c: Item)
    requires Before(a, b) && Before(b, c)
    ensures Before(a, c)
  {
    LexTransitive(OriginPath(a), OriginPath(b), OriginPath(c));
  }
}

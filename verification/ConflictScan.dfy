/** The conflict scan, one run of units at a time, and the invariant that makes
    it land at the item's place in the document order. */
module ConflictScan {
  import opened Wrappers
  import opened ItemOrder
  import opened Integration

  ghost function Elems(l: seq<Item>): set<Item> {
    set x | x in l
  }

  ghost predicate Sorted(l: seq<Item>) {
    forall i, j :: 0 <= i < j < |l| ==> Before(l[i], l[j])
  }

  /** Same client, smaller clock. */
  predicate Earlier(u: Item, x: Item) {
    u.client == x.client && u.clock < x.clock
  }

  /** A client's items arrive in clock order (`addStruct` rejects a gap). */
  ghost predicate ClockPrefix(h: set<Item>, l: seq<Item>) {
    forall u, x {:trigger Earlier(u, x)} :: u in h && x in l && Earlier(u, x) ==> u in l
  }

  /** A list a replica can hold, given everything `h` that was ever created. */
  ghost predicate Replica(h: set<Item>, l: seq<Item>) {
    && ValidHistory(h)
    && Elems(l) <= h
    && Closed(Elems(l))
    && ClockPrefix(h, l)
    && Sorted(l)
  }

  /** Everything `missingClient` and the clock check wait for has arrived. */
  ghost predicate Ready(h: set<Item>, l: seq<Item>, x: Item) {
    && x in h && x !in l
    && RefsIn(Elems(l), x)
    && forall u {:trigger Earlier(u, x)} :: u in h && Earlier(u, x) ==> u in l
  }

  function Insert(l: seq<Item>, j: nat, x: Item): seq<Item>
    requires j <= |l|
  {
    l[..j] + [x] + l[j..]
  }

  /** `j` is the place of `x`. */
  ghost predicate IsPlace(l: seq<Item>, x: Item, j: nat) {
    && j <= |l|
    && (forall k :: 0 <= k < j ==> Before(l[k], x))
    && (forall k :: j <= k < |l| ==> Before(x, l[k]))
  }

  // ---------------------------------------------------------------- scanning

  /** First index after the origin. */
  ghost predicate AfterOrigin(l: seq<Item>, x: Item, b: nat) {
    b <= |l| && if x.origin.Some? then b > 0 && l[b - 1] == x.origin.value else b == 0
  }

  /** Index of the right origin, or the end of the list. */
  ghost predicate AtRightOrigin(l: seq<Item>, x: Item, e: nat) {
    e <= |l| && if x.rightOrigin.Some? then e < |l| && l[e] == x.rightOrigin.value else e == |l|
  }

  ghost predicate NotTaken(l: seq<Item>, b: nat, j: nat, y: Item)
    requires j <= |l|
  {
    forall t :: b <= t < j ==> l[t] != y
  }

  /** Units `b..i` have been scanned and `left` has moved up to index `j`;
      the conflicting items are those in `j..i`. */
  ghost predicate ScanInv(l: seq<Item>, x: Item, b: nat, j: nat, i: nat) {
    && b <= j <= i <= |l|
    && (forall k :: b <= k < i ==> Below(x, l[k]))
    && (forall k :: b <= k < j ==> Before(l[k], x))
    && (forall k :: j <= k < i ==> NotTaken(l, b, j, Top(x, l[k])))
    && (forall k :: j <= k < i && l[k].origin == x.origin ==> l[k].client >= x.client)
  }

  predicate Follows(l: seq<Item>, k: nat)
    requires 0 < k < |l|
  {
    l[k].origin == Some(l[k - 1])
  }

  /** `l[i..m]` is a run: each unit has the one before as its origin. */
  ghost predicate IsRun(l: seq<Item>, i: nat, m: nat) {
    && i < m <= |l|
    && forall k {:trigger Follows(l, k)} :: i < k < m ==> Follows(l, k)
  }

  lemma {:induction false} RunBelow(l: seq<Item>, x: Item, i: nat, m: nat, k: nat)
    requires IsRun(l, i, m) && i <= k < m && Below(x, l[i])
    ensures Below(x, l[k]) && Top(x, l[k]) == Top(x, l[i])
  {
    if k > i {
      RunBelow(l, x, i, m, k - 1);
      assert Follows(l, k);
      assert OriginPath(l[k]) == OriginPath(l[k - 1]) + [l[k]];
    }
  }

  /** A child of something below the origin of `x` is no sibling of `x`. */
  lemma {:induction false} BelowIsNoSibling(x: Item, y: Item)
    requires y.origin.Some? && Below(x, y.origin.value)
    ensures y.origin != x.origin
  {
    var p := y.origin.value;
    assert x.origin == Some(p) ==> |OriginPath(x)| == |OriginPath(p)| + 1;
  }

  lemma {:induction false} BelowIsOn(x: Item, y: Item)
    requires x.origin.Some? && Below(x, y)
    ensures IsOn(x.origin.value, y)
  {
    var q := OriginPath(x.origin.value);
    assert OriginPath(x) == q + [x];
    assert OriginPath(y)[|q| - 1] == OriginPath(y)[..|q|][|q| - 1] == q[|q| - 1];
  }

  /** In a sorted list the document order is the index order. */
  lemma {:induction false} OrderGivesIndex(l: seq<Item>, a: nat, b: nat)
    requires Sorted(l) && a < |l| && b < |l| && Before(l[a], l[b])
    ensures a < b
  {
    Asymmetric(l[a], l[b]);
  }

  /** Below the origin of `x`, and not `x`'s child: one step down from the parent. */
  lemma {:induction false} ParentBelow(x: Item, y: Item)
    requires y.origin.Some? && Below(x, y.origin.value)
    ensures Below(x, y) && Top(x, y) == Top(x, y.origin.value)
  {
    assert OriginPath(y) == OriginPath(y.origin.value) + [y];
  }

  lemma {:induction false} NotOnAnyPath(h: set<Item>, l: seq<Item>, x: Item, y: Item)
    requires Replica(h, l) && x !in l && y in l
    ensures x !in OriginPath(y) && x !in RightPath(y)
  {
    PathsStayInside(Elems(l), y);
  }

  lemma {:induction false} TopOf(h: set<Item>, l: seq<Item>, x: Item, y: Item)
    requires Replica(h, l) && x !in l && y in l && Below(x, y)
    ensures Top(x, y) in l && Top(x, y) != x && Top(x, y).origin == x.origin
    ensures Before(y, x) == SiblingBefore(Top(x, y), x)
    ensures Before(x, y) == SiblingBefore(x, Top(x, y))
    ensures Top(x, y) == y || Before(Top(x, y), y)
  {
    NotOnAnyPath(h, l, x, y);
    PathsStayInside(Elems(l), y);
    TopIsSibling(x, y);
    CompareBelow(x, y);
    AncestorBefore(y, Depth(x));
  }

  /** A run whose first unit comes before `x` lies before `x`, and so does all before it. */
  lemma {:induction false} TakeRun(h: set<Item>, l: seq<Item>, x: Item, b: nat, j: nat, i: nat, m: nat)
    requires Replica(h, l) && x !in l && ScanInv(l, x, b, j, i) && IsRun(l, i, m)
    requires Below(x, l[i]) && Before(l[i], x)
    ensures ScanInv(l, x, b, m, m)
  {
    forall k | b <= k < m ensures Below(x, l[k]) && Before(l[k], x) {
      if k >= i {
        RunBelow(l, x, i, m, k);
        TopOf(h, l, x, l[i]);
        TopOf(h, l, x, l[k]);
      } else {
        Transitive(l[k], l[i], x);
      }
    }
  }

  /** A run that conflicts, or hangs below something that does, is passed over. */
  lemma {:induction false} PassRun(h: set<Item>, l: seq<Item>, x: Item, b: nat, j: nat, i: nat, m: nat)
    requires Replica(h, l) && x !in l && ScanInv(l, x, b, j, i) && IsRun(l, i, m)
    requires Below(x, l[i]) && NotTaken(l, b, j, Top(x, l[i]))
    requires l[i].origin == x.origin ==> l[i].client >= x.client
    ensures ScanInv(l, x, b, j, m)
  {
    forall k | i <= k < m ensures Below(x, l[k]) && Top(x, l[k]) == Top(x, l[i]) {
      RunBelow(l, x, i, m, k);
    }
    forall k | i < k < m ensures l[k].origin != x.origin {
      RunBelow(l, x, i, m, k - 1);
      assert Follows(l, k);
      BelowIsNoSibling(x, l[k]);
    }
  }

  // ---------------------------------------------------------------- the branches of the loop

  lemma {:induction false} RightOriginIsAfter(h: set<Item>, l: seq<Item>, x: Item, e: nat)
    requires Replica(h, l) && Ready(h, l, x) && AtRightOrigin(l, x, e) && e < |l|
    ensures Before(x, l[e])
    ensures RightSibling(x).None? ==> x.origin.Some? && !Below(x, l[e]) && Before(x.origin.value, l[e])
  {
    var r := l[e];
    assert WellCreated(h, x);
    if RightSibling(x).Some? {
      BeforeOwnRight(x);
      SiblingsCompare(x, r);
    } else {
      var o := x.origin.value;
      if Below(x, r) { BelowIsOn(x, r); }
      SiblingIsBelow(x, x);
      CompareOutside(x, r, x);
    }
  }

  /** Case 1, smaller client: `left` moves over the run. */
  lemma {:induction false} SmallerSibling(h: set<Item>, l: seq<Item>, x: Item, e: nat, i: nat)
    requires Replica(h, l) && Ready(h, l, x) && AtRightOrigin(l, x, e) && i < e
    requires l[i].origin == x.origin && l[i].client < x.client
    ensures Below(x, l[i]) && Before(l[i], x)
  {
    SiblingIsBelow(x, l[i]);
    if RightSibling(x).Some? {
      Asymmetric(l[i], l[e]);
      SiblingsCompare(l[i], l[e]);
    }
    SmallerClientFirst(l[i], x);
    SiblingsCompare(l[i], x);
  }

  /** Case 1, same right origin and a client that is not smaller: stop here. */
  lemma {:induction false} SameSpot(h: set<Item>, l: seq<Item>, x: Item, e: nat, i: nat)
    requires Replica(h, l) && Ready(h, l, x) && AtRightOrigin(l, x, e) && i < e
    requires l[i].origin == x.origin && l[i].client >= x.client && l[i].rightOrigin == x.rightOrigin
    ensures Before(x, l[i])
  {
    var o := l[i];
    assert o in h && WellCreated(h, x);
    assert SameId(o, x) ==> o == x;
    assert o.client == x.client && o.clock > x.clock ==> Earlier(x, o);
    if EarlierTwin(o, x) {
      BeforeOwnRight(o);
      SiblingAsymmetric(o, o.rightOrigin.value);
    }
    SameRight(x, o);
    SiblingsCompare(x, o);
  }

  /** Case 2, the origin was taken: the whole subtree goes along. */
  lemma {:induction false} BelowTaken(h: set<Item>, l: seq<Item>, x: Item, b: nat, j: nat, i: nat, c: nat)
    requires Replica(h, l) && x !in l && ScanInv(l, x, b, j, i) && i < |l|
    requires b <= c < j && l[i].origin == Some(l[c])
    ensures Below(x, l[i]) && Before(l[i], x)
  {
    ParentBelow(x, l[i]);
    TopOf(h, l, x, l[c]);
    TopOf(h, l, x, l[i]);
  }

  /** Case 2, the origin conflicts too: pass. */
  lemma {:induction false} BelowConflict(h: set<Item>, l: seq<Item>, x: Item, b: nat, j: nat, i: nat, c: nat)
    requires Replica(h, l) && x !in l && ScanInv(l, x, b, j, i) && i < |l|
    requires j <= c < i && l[i].origin == Some(l[c])
    ensures Below(x, l[i]) && NotTaken(l, b, j, Top(x, l[i])) && l[i].origin != x.origin
  {
    ParentBelow(x, l[i]);
    BelowIsNoSibling(x, l[i]);
  }

  /** The origin was not scanned: the subtree has ended, and `x` belongs before. */
  lemma {:induction false} SubtreeEnds(h: set<Item>, l: seq<Item>, x: Item, b: nat, j: nat, i: nat)
    requires Replica(h, l) && Ready(h, l, x) && AfterOrigin(l, x, b) && ScanInv(l, x, b, j, i) && i < |l|
    requires l[i].origin != x.origin
    requires forall k :: b <= k < i ==> l[i].origin != Some(l[k])
    ensures x.origin.Some? && Before(x, l[i])
  {
    var o := l[i];
    if Below(x, o) { ParentWasScanned(h, l, x, b, i); }
    SiblingIsBelow(x, x);
    CompareOutside(x, o, x);
  }

  /** In a sorted list the parent of a proper descendant lies between the origin and it. */
  lemma {:induction false} ParentWasScanned(h: set<Item>, l: seq<Item>, x: Item, b: nat, i: nat)
    requires Replica(h, l) && x !in l && AfterOrigin(l, x, b) && i < |l|
    requires Below(x, l[i]) && l[i].origin != x.origin
    ensures exists k :: b <= k < i && l[i].origin == Some(l[k])
  {
    var o := l[i];
    TopOf(h, l, x, o);
    assert OriginPath(o)[|OriginPath(o)| - 1] == o;
    PathsStayInside(Elems(l), o);
    OriginPathStep(o, Depth(o));
    var p := OriginPath(o)[Depth(o) - 1];
    assert p in OriginPath(o);
    var k :| 0 <= k < |l| && l[k] == p;
    ParentBetween(l, x, b, i, k);
  }

  lemma {:induction false} ParentBetween(l: seq<Item>, x: Item, b: nat, i: nat, k: nat)
    requires Sorted(l) && AfterOrigin(l, x, b) && i < |l| && k < |l|
    requires Below(x, l[i]) && Depth(l[i]) > Depth(x) && l[i].origin == Some(l[k])
    ensures b <= k < i
  {
    ParentOrder(x, l[i]);
    OrderGivesIndex(l, k, i);
    if x.origin.Some? { OrderGivesIndex(l, b - 1, k); }
  }

  lemma {:induction false} ParentOrder(x: Item, o: Item)
    requires Below(x, o) && Depth(o) > Depth(x) && o.origin.Some?
    ensures Before(o.origin.value, o)
    ensures x.origin.Some? ==> x.origin != o.origin && Before(x.origin.value, o.origin.value)
  {
    var p := o.origin.value;
    assert OriginPath(o) == OriginPath(p) + [o];
    assert OriginPath(o)[..|OriginPath(p)|] == OriginPath(p)[..|OriginPath(p)|];
    LexBeforeAt(OriginPath(p), OriginPath(o), |OriginPath(p)|);
    if x.origin.Some? {
      var q := OriginPath(x.origin.value);
      assert OriginPath(x) == q + [x];
      assert OriginPath(p)[..|q|] == OriginPath(o)[..|q|] == OriginPath(x)[..|q|] == q[..|q|];
      LexBeforeAt(q, OriginPath(p), |q|);
    }
  }

  // ---------------------------------------------------------------- the end of the scan

  /** However the loop ends, `left` is the right place. */
  lemma {:induction false} ScanLands(h: set<Item>, l: seq<Item>, x: Item, b: nat, j: nat, i: nat)
    requires Replica(h, l) && Ready(h, l, x) && AfterOrigin(l, x, b) && ScanInv(l, x, b, j, i)
    requires i < |l| ==> Before(x, l[i])
    ensures IsPlace(l, x, j)
  {
    forall k | 0 <= k < j ensures Before(l[k], x) {
      if k < b {
        OriginIsBefore(x);
        if k < b - 1 { Transitive(l[k], l[b - 1], x); }
      }
    }
    if j < |l| {
      if j < i { FirstConflictIsAfter(h, l, x, b, j, i); }
      forall k | j <= k < |l| ensures Before(x, l[k]) {
        if k > j { Transitive(x, l[j], l[k]); }
      }
    }
  }

  lemma {:induction false} OriginIsBefore(x: Item)
    requires x.origin.Some?
    ensures Before(x.origin.value, x)
  {
    var q := OriginPath(x.origin.value);
    assert OriginPath(x) == q + [x] && q[..|q|] == q && (q + [x])[..|q|] == q;
    LexBeforeAt(q, OriginPath(x), |q|);
  }

  lemma {:induction false} FirstConflictIsAfter(h: set<Item>, l: seq<Item>, x: Item, b: nat, j: nat, i: nat)
    requires Replica(h, l) && Ready(h, l, x) && AfterOrigin(l, x, b) && ScanInv(l, x, b, j, i) && j < i
    requires i < |l| ==> Before(x, l[i])
    ensures Before(x, l[j])
  {
    TopOf(h, l, x, l[j]);
    var t := Top(x, l[j]);
    var w :| 0 <= w < |l| && l[w] == t;
    if t != l[j] { OrderGivesIndex(l, w, j); }
    if x.origin.Some? {
      OriginIsBefore(t);
      OrderGivesIndex(l, b - 1, w);
    }
    assert t == l[j];
    Total(h, x, t);
    if Before(t, x) { ConflictIsNotBefore(h, l, x, b, j, i); }
  }

  /** A sibling before `x` would owe it to a smaller client among the conflicting items. */
  lemma {:induction false} ConflictIsNotBefore(h: set<Item>, l: seq<Item>, x: Item, b: nat, j: nat, i: nat)
    requires Replica(h, l) && Ready(h, l, x) && ScanInv(l, x, b, j, i) && j < i
    requires i < |l| ==> Before(x, l[i])
    requires l[j].origin == x.origin
    ensures !Before(l[j], x)
  {
    var t := l[j];
    if Before(t, x) {
      SiblingsCompare(t, x);
      NotOnAnyPath(h, l, x, t);
      var s := SmallerClientWitness(t, x);
      PathsStayInside(Elems(l), t);
      assert s in l;
      var k :| 0 <= k < |l| && l[k] == s;
      SmallerClientFirst(s, x);
      SiblingsCompare(s, x);
      if s != t {
        SiblingsCompare(t, s);
        OrderGivesIndex(l, j, k);
      }
      if i < |l| {
        Transitive(s, x, l[i]);
        OrderGivesIndex(l, k, i);
      }
    }
  }

  // ---------------------------------------------------------------- the scan itself

  function IdOf(x: Option<Item>): Option<Id> {
    if x.None? then None else Some(Id(x.value.client, x.value.clock))
  }

  /** The scan sees ids only. */
  predicate HasId(l: seq<Item>, lo: nat, hi: nat, id: Id)
    requires lo <= hi <= |l|
  {
    exists k :: lo <= k < hi && l[k].client == id.client && l[k].clock == id.clock
  }

  /** What one pass through the loop does: move `left` up to `o`, move on, or stop. */
  datatype Verdict = Take | Pass | Stop

  /** The body of the loop of `integrateWithScratch` for `o == l[i]`: `b` is where
      the scan started and `j` where `left` stands, so `itemsBeforeOrigin` holds
      `b..i` and `conflictingItems` holds `j..i`. */
  function Judge(l: seq<Item>, x: Item, b: nat, j: nat, i: nat): Verdict
    requires b <= j <= i < |l|
  {
    var o := l[i];
    if IdOf(x.origin) == IdOf(o.origin) then
      if o.client < x.client then Take
      else if IdOf(x.rightOrigin) == IdOf(o.rightOrigin) then Stop
      else Pass
    else if o.origin.Some? && HasId(l, b, i, IdOf(o.origin).value) then
      if !HasId(l, j, i, IdOf(o.origin).value) then Take else Pass
    else Stop
  }

  /** The whole loop on a list of units, from `o == l[i]`; `e` is the right origin. */
  function Scan(l: seq<Item>, x: Item, b: nat, e: nat, j: nat, i: nat): (p: nat)
    requires b <= j <= i <= |l| && e <= |l|
    ensures j <= p <= |l|
    decreases |l| - i
  {
    if i >= e then j
    else match Judge(l, x, b, j, i)
      case Take => Scan(l, x, b, e, i + 1, i + 1)
      case Pass => Scan(l, x, b, e, j, i + 1)
      case Stop => j
  }

  /** Ids identify the items a list refers to. */
  lemma {:induction false} SameRef(h: set<Item>, l: seq<Item>, a: Option<Item>, b: Option<Item>)
    requires Replica(h, l)
    requires a.Some? ==> a.value in l
    requires b.Some? ==> b.value in l
    ensures IdOf(a) == IdOf(b) <==> a == b
  {
    assert a.Some? && b.Some? ==> (SameId(a.value, b.value) ==> a == b);
  }

  lemma {:induction false} HasIdIsMember(h: set<Item>, l: seq<Item>, lo: nat, hi: nat, y: Item)
    requires Replica(h, l) && lo <= hi <= |l| && y in l
    ensures HasId(l, lo, hi, Id(y.client, y.clock)) <==> exists k :: lo <= k < hi && l[k] == y
  {
    assert forall k :: 0 <= k < |l| ==> l[k] in Elems(l);
    assert forall k :: 0 <= k < |l| && SameId(l[k], y) ==> l[k] == y;
    if HasId(l, lo, hi, Id(y.client, y.clock)) {
      var k :| lo <= k < hi && l[k].client == y.client && l[k].clock == y.clock;
      assert SameId(l[k], y);
    }
  }

  /** Judging the first unit of a run is right for the whole run. */
  lemma {:induction false} JudgeIsRight(h: set<Item>, l: seq<Item>, x: Item, b: nat, e: nat, j: nat, i: nat, m: nat)
    requires Replica(h, l) && Ready(h, l, x)
    requires AfterOrigin(l, x, b) && AtRightOrigin(l, x, e)
    requires ScanInv(l, x, b, j, i) && i < e && IsRun(l, i, m)
    ensures Judge(l, x, b, j, i).Take? ==> ScanInv(l, x, b, m, m)
    ensures Judge(l, x, b, j, i).Pass? ==> ScanInv(l, x, b, j, m)
    ensures Judge(l, x, b, j, i).Stop? ==> Before(x, l[i])
  {
    var o := l[i];
    assert o in Elems(l) && RefsIn(Elems(l), o);
    SameRef(h, l, x.origin, o.origin);
    if x.origin == o.origin {
      JudgeSibling(h, l, x, b, e, j, i, m);
    } else if o.origin.Some? && HasId(l, b, i, IdOf(o.origin).value) {
      HasIdIsMember(h, l, b, i, o.origin.value);
      JudgeBelow(h, l, x, b, j, i, m);
    } else {
      if o.origin.Some? { HasIdIsMember(h, l, b, i, o.origin.value); }
      SubtreeEnds(h, l, x, b, j, i);
    }
  }

  lemma {:induction false} JudgeSibling(h: set<Item>, l: seq<Item>, x: Item, b: nat, e: nat, j: nat, i: nat, m: nat)
    requires Replica(h, l) && Ready(h, l, x) && AtRightOrigin(l, x, e)
    requires ScanInv(l, x, b, j, i) && i < e && IsRun(l, i, m) && l[i].origin == x.origin
    ensures l[i].client < x.client ==> ScanInv(l, x, b, m, m)
    ensures l[i].client >= x.client && IdOf(x.rightOrigin) == IdOf(l[i].rightOrigin) ==> Before(x, l[i])
    ensures l[i].client >= x.client ==> ScanInv(l, x, b, j, m)
  {
    var o := l[i];
    SiblingIsBelow(x, o);
    if o.client < x.client {
      SmallerSibling(h, l, x, e, i);
      TakeRun(h, l, x, b, j, i, m);
    } else {
      forall t | b <= t < j ensures l[t] != o { Asymmetric(l[t], o); }
      PassRun(h, l, x, b, j, i, m);
      assert o in Elems(l) && RefsIn(Elems(l), o);
      SameRef(h, l, x.rightOrigin, o.rightOrigin);
      if x.rightOrigin == o.rightOrigin { SameSpot(h, l, x, e, i); }
    }
  }

  lemma {:induction false} JudgeBelow(h: set<Item>, l: seq<Item>, x: Item, b: nat, j: nat, i: nat, m: nat)
    requires Replica(h, l) && x !in l
    requires ScanInv(l, x, b, j, i) && IsRun(l, i, m) && l[i].origin.Some? && l[i].origin.value in l
    requires exists k :: b <= k < i && l[k] == l[i].origin.value
    ensures HasId(l, j, i, IdOf(l[i].origin).value) ==> ScanInv(l, x, b, j, m)
    ensures !HasId(l, j, i, IdOf(l[i].origin).value) ==> ScanInv(l, x, b, m, m)
  {
    var p := l[i].origin.value;
    HasIdIsMember(h, l, j, i, p);
    if HasId(l, j, i, Id(p.client, p.clock)) {
      var c :| j <= c < i && l[c] == p;
      BelowConflict(h, l, x, b, j, i, c);
      PassRun(h, l, x, b, j, i, m);
    } else {
      var k :| b <= k < i && l[k] == p;
      BelowTaken(h, l, x, b, j, i, k);
      TakeRun(h, l, x, b, j, i, m);
    }
  }

  /** The scan finds the place of the item in the document order. */
  lemma {:induction false} ScanIsPlace(h: set<Item>, l: seq<Item>, x: Item, b: nat, e: nat, j: nat, i: nat)
    requires Replica(h, l) && Ready(h, l, x)
    requires AfterOrigin(l, x, b) && AtRightOrigin(l, x, e)
    requires ScanInv(l, x, b, j, i) && i <= e
    ensures IsPlace(l, x, Scan(l, x, b, e, j, i))
    decreases |l| - i
  {
    if i >= e {
      ScanEnds(h, l, x, b, e, j, i);
    } else {
      JudgeIsRight(h, l, x, b, e, j, i, i + 1);
      match Judge(l, x, b, j, i) {
        case Take => ScanIsPlace(h, l, x, b, e, i + 1, i + 1);
        case Pass => ScanIsPlace(h, l, x, b, e, j, i + 1);
        case Stop => ScanLands(h, l, x, b, j, i);
      }
    }
  }

  lemma {:induction false} ScanEnds(h: set<Item>, l: seq<Item>, x: Item, b: nat, e: nat, j: nat, i: nat)
    requires Replica(h, l) && Ready(h, l, x)
    requires AfterOrigin(l, x, b) && AtRightOrigin(l, x, e) && ScanInv(l, x, b, j, i) && i == e
    ensures IsPlace(l, x, j)
  {
    if i < |l| { RightOriginIsAfter(h, l, x, e); }
    ScanLands(h, l, x, b, j, i);
  }
}

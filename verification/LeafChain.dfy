/** The double chain through the leaves of the struct tree. */
module LeafChain {
  import opened Wrappers

  /** A leaf's neighbours, by name. */
  datatype Link = Link(prev: Option<nat>, next: Option<nat>)

  /** The links of every leaf, and the ends of the chain. */
  datatype Links = Links(of: map<nat, Link>, first: Option<nat>, last: Option<nat>)

  function NameAt(names: seq<nat>, i: int): Option<nat> {
    if 0 <= i < |names| then Some(names[i]) else None
  }

  ghost predicate LinkedAt(k: Links, names: seq<nat>, i: nat)
    requires i < |names|
  {
    names[i] in k.of && k.of[names[i]] == Link(NameAt(names, i - 1), NameAt(names, i + 1))
  }

  predicate Apart(names: seq<nat>, i: nat, j: nat)
    requires i < j < |names|
  {
    names[i] != names[j]
  }

  /** The chain runs through `names`, in both directions. */
  ghost predicate Chain(k: Links, names: seq<nat>) {
    && k.first == NameAt(names, 0) && k.last == NameAt(names, |names| - 1)
    && (forall i {:trigger LinkedAt(k, names, i)} :: 0 <= i < |names| ==> LinkedAt(k, names, i))
    && (forall i, j {:trigger Apart(names, i, j)} :: 0 <= i < j < |names| ==> Apart(names, i, j))
  }

  // ---------------------------------------------------------------- a new leaf behind a leaf

  /** `right` is linked behind `leaf`. */
  function LinkBehind(k: Links, leaf: nat, right: nat): Links
    requires leaf in k.of && (k.of[leaf].next.Some? ==> k.of[leaf].next.value in k.of)
  {
    var next := k.of[leaf].next;
    var of1 := k.of[right := Link(Some(leaf), next)];
    var of2 := if next.Some? then of1[next.value := of1[next.value].(prev := Some(right))] else of1;
    Links(of2[leaf := of2[leaf].(next := Some(right))], k.first, if next.Some? then k.last else Some(right))
  }

  function InsertName(names: seq<nat>, i: nat, name: nat): (r: seq<nat>)
    requires i <= |names|
    ensures |r| == |names| + 1 && r[i] == name
    ensures forall j :: 0 <= j < i ==> r[j] == names[j]
    ensures forall j :: i < j < |r| ==> r[j] == names[j - 1]
  {
    names[..i] + [name] + names[i..]
  }

  lemma {:induction false} NextIsLinked(k: Links, names: seq<nat>, i: nat)
    requires Chain(k, names) && i < |names|
    ensures names[i] in k.of && k.of[names[i]] == Link(NameAt(names, i - 1), NameAt(names, i + 1))
    ensures i + 1 < |names| ==> names[i + 1] in k.of
  {
    assert LinkedAt(k, names, i);
    assert i + 1 < |names| ==> LinkedAt(k, names, i + 1);
  }

  lemma {:induction false} LinkBehindKeepsChain(k: Links, names: seq<nat>, i: nat, right: nat)
    requires Chain(k, names) && i < |names| && right !in names
    ensures names[i] in k.of && (k.of[names[i]].next.Some? ==> k.of[names[i]].next.value in k.of)
    ensures Chain(LinkBehind(k, names[i], right), InsertName(names, i + 1, right))
  {
    NextIsLinked(k, names, i);
    var k', names' := LinkBehind(k, names[i], right), InsertName(names, i + 1, right);
    forall j | 0 <= j < |names'| ensures LinkedAt(k', names', j) {
      BehindLink(k, names, i, right, j);
    }
    forall x, y | 0 <= x < y < |names'| ensures Apart(names', x, y) {
      if x != i + 1 && y != i + 1 {
        assert Apart(names, if x <= i then x else x - 1, if y <= i then y else y - 1);
      }
    }
  }

  lemma {:induction false} BehindLink(k: Links, names: seq<nat>, i: nat, right: nat, j: nat)
    requires Chain(k, names) && i < |names| && right !in names && j < |names| + 1
    requires names[i] in k.of && (k.of[names[i]].next.Some? ==> k.of[names[i]].next.value in k.of)
    ensures LinkedAt(LinkBehind(k, names[i], right), InsertName(names, i + 1, right), j)
  {
    NextIsLinked(k, names, i);
    if i + 1 < |names| { assert Apart(names, i, i + 1); }
    if j != i + 1 {
      var o := if j <= i then j else j - 1;
      assert LinkedAt(k, names, o);
      if o < i { assert Apart(names, o, i); }
      if o > i { assert Apart(names, i, o); }
      if i + 1 < |names| && o < i + 1 { assert Apart(names, o, i + 1); }
      if o > i + 1 { assert Apart(names, i + 1, o); }
    }
  }

  /** A leaf is linked last; it may be the only one. */
  function AddLast(k: Links, leaf: nat): Links
    requires k.last.Some? ==> k.last.value in k.of && k.of[k.last.value].next.None?
  {
    if k.last.None? then Links(k.of[leaf := Link(None, None)], Some(leaf), Some(leaf)) else LinkBehind(k, k.last.value, leaf)
  }

  lemma {:induction false} AddLastKeepsChain(k: Links, names: seq<nat>, leaf: nat)
    requires Chain(k, names) && leaf !in names
    ensures k.last.Some? ==> k.last.value in k.of && k.of[k.last.value].next.None?
    ensures Chain(AddLast(k, leaf), names + [leaf])
  {
    var n: int := |names|;
    if n > 0 {
      NextIsLinked(k, names, n - 1);
      LinkBehindKeepsChain(k, names, n - 1, leaf);
      assert InsertName(names, n, leaf) == names + [leaf];
    } else {
      assert LinkedAt(AddLast(k, leaf), names + [leaf], 0);
    }
  }

  const NoLinks: Links := Links(map[], None, None)

  // ---------------------------------------------------------------- a leaf is unlinked

  /** `unlinkLeaf` */
  function Unlinked(k: Links, leaf: nat): Links
    requires leaf in k.of && (k.of[leaf].prev.Some? ==> k.of[leaf].prev.value in k.of) && (k.of[leaf].next.Some? ==> k.of[leaf].next.value in k.of)
  {
    var prev, next := k.of[leaf].prev, k.of[leaf].next;
    var of1 := if prev.Some? then k.of[prev.value := k.of[prev.value].(next := next)] else k.of;
    var of2 := if next.Some? then of1[next.value := of1[next.value].(prev := prev)] else of1;
    Links(of2 - {leaf}, if prev.Some? then k.first else next, if next.Some? then k.last else prev)
  }

  function RemoveName(names: seq<nat>, i: nat): (r: seq<nat>)
    requires i < |names|
    ensures |r| == |names| - 1
    ensures forall j :: 0 <= j < i ==> r[j] == names[j]
    ensures forall j :: i <= j < |r| ==> r[j] == names[j + 1]
  {
    names[..i] + names[i + 1..]
  }

  lemma {:induction false} UnlinkKeepsChain(k: Links, names: seq<nat>, i: nat)
    requires Chain(k, names) && i < |names|
    ensures var leaf := names[i];
            leaf in k.of && (k.of[leaf].prev.Some? ==> k.of[leaf].prev.value in k.of) && (k.of[leaf].next.Some? ==> k.of[leaf].next.value in k.of)
    ensures Chain(Unlinked(k, names[i]), RemoveName(names, i))
  {
    NextIsLinked(k, names, i);
    if i > 0 { NextIsLinked(k, names, i - 1); }
    var k', names' := Unlinked(k, names[i]), RemoveName(names, i);
    forall j | 0 <= j < |names'| ensures LinkedAt(k', names', j) {
      UnlinkedLink(k, names, i, j);
    }
    forall x, y | 0 <= x < y < |names'| ensures Apart(names', x, y) {
      assert Apart(names, if x < i then x else x + 1, if y < i then y else y + 1);
    }
  }

  lemma {:induction false} UnlinkedLink(k: Links, names: seq<nat>, i: nat, j: nat)
    requires Chain(k, names) && i < |names| && j < |names| - 1
    requires var leaf := names[i];
             leaf in k.of && (k.of[leaf].prev.Some? ==> k.of[leaf].prev.value in k.of) && (k.of[leaf].next.Some? ==> k.of[leaf].next.value in k.of)
    ensures LinkedAt(Unlinked(k, names[i]), RemoveName(names, i), j)
  {
    NextIsLinked(k, names, i);
    if i > 0 { NextIsLinked(k, names, i - 1); }
    var o := if j < i then j else j + 1;
    assert LinkedAt(k, names, o);
    if o < i { assert Apart(names, o, i); } else { assert Apart(names, i, o); }
    if 0 < i && o < i - 1 { assert Apart(names, o, i - 1); }
    if 0 < i && i - 1 < o { assert Apart(names, i - 1, o); }
    if i + 1 < |names| && o < i + 1 { assert Apart(names, o, i + 1); }
    if o > i + 1 { assert Apart(names, i + 1, o); }
  }
}

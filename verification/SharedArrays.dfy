/** Contents that share backing arrays.  Growing a content writes in place when its view
    has spare capacity; because at most one view of an array has any, and nobody else
    reaches into it, each content reads as if it had an array of its own. */
module SharedArrays {
  /** A slice: `len` elements from `start` on, with room for `cap`. */
  datatype View = View(backing: nat, start: nat, len: nat, cap: nat)

  function End(v: View): nat { v.start + v.len }
  function Limit(v: View): nat { v.start + v.cap }

  type Arrays = map<nat, seq<int>>
  type Views = map<nat, View>

  /** The view lies in its array. */
  predicate Fits(arrays: Arrays, v: View) {
    v.len <= v.cap && v.backing in arrays && Limit(v) <= |arrays[v.backing]|
  }

  function Read(arrays: Arrays, v: View): seq<int>
    requires Fits(arrays, v)
  {
    arrays[v.backing][v.start..End(v)]
  }

  /** `w` has no spare capacity if `v` has, and does not read where `v` may grow. */
  predicate Apart(v: View, w: View) {
    v.backing == w.backing && v.len < v.cap ==> w.len == w.cap && (w.len == 0 || End(w) <= End(v) || Limit(v) <= w.start)
  }

  ghost predicate Valid(arrays: Arrays, views: Views) {
    && (forall c {:trigger views[c]} :: c in views ==> Fits(arrays, views[c]))
    && (forall c, d {:trigger Apart(views[c], views[d])} :: c in views && d in views && c != d ==> Apart(views[c], views[d]))
  }

  function Write(a: seq<int>, at: nat, xs: seq<int>): seq<int>
    requires at + |xs| <= |a|
  {
    a[..at] + xs + a[at + |xs|..]
  }

  lemma {:induction false} WriteElsewhere(a: seq<int>, at: nat, xs: seq<int>, from: nat, to: nat)
    requires at + |xs| <= |a| && from <= to <= |a| && (to <= at || at + |xs| <= from || from == to)
    ensures Write(a, at, xs)[from..to] == a[from..to]
  {
    forall i | from <= i < to ensures Write(a, at, xs)[i] == a[i] { }
  }

  function Grown(v: View, n: nat): View { v.(len := v.len + n) }

  lemma {:induction false} GrownApart(views: Views, c: nat, n: nat)
    requires c in views && views[c].len + n <= views[c].cap
    requires forall d, e {:trigger Apart(views[d], views[e])} :: d in views && e in views && d != e ==> Apart(views[d], views[e])
    ensures var views' := views[c := Grown(views[c], n)];
            forall d, e {:trigger Apart(views'[d], views'[e])} :: d in views && e in views && d != e ==> Apart(views'[d], views'[e])
  {
    var views' := views[c := Grown(views[c], n)];
    forall d, e | d in views && e in views && d != e ensures Apart(views'[d], views'[e]) {
      assert Apart(views[d], views[e]) && Apart(views[e], views[d]);
    }
  }

  /** Growing in place leaves all other views alone. */
  lemma {:induction false} GrowInPlace(arrays: Arrays, views: Views, c: nat, xs: seq<int>)
    requires Valid(arrays, views) && c in views && views[c].len + |xs| <= views[c].cap && xs != []
    ensures var v := views[c]; var arrays' := arrays[v.backing := Write(arrays[v.backing], End(v), xs)]; var views' := views[c := Grown(v, |xs|)];
            && Valid(arrays', views') && Read(arrays', views'[c]) == Read(arrays, v) + xs
            && forall d {:trigger views'[d]} :: d in views && d != c ==> Read(arrays', views'[d]) == Read(arrays, views[d])
  {
    var v := views[c];
    assert Fits(arrays, v);
    var a := arrays[v.backing];
    var arrays' := arrays[v.backing := Write(a, End(v), xs)];
    var views' := views[c := Grown(v, |xs|)];
    GrownApart(views, c, |xs|);
    forall d | d in views' ensures Fits(arrays', views'[d]) { assert Fits(arrays, views[d]); }
    assert Write(a, End(v), xs)[v.start..End(v) + |xs|] == a[v.start..End(v)] + xs;
    forall d | d in views && d != c ensures Read(arrays', views'[d]) == Read(arrays, views[d]) {
      assert Apart(v, views[d]) && Fits(arrays, views[d]);
      if views[d].backing == v.backing { WriteElsewhere(a, End(v), xs, views[d].start, End(views[d])); }
    }
  }

  /** A view of a new array stands alone. */
  lemma {:induction false} NewArray(arrays: Arrays, views: Views, c: nat, name: nat, a: seq<int>, n: nat)
    requires Valid(arrays, views) && name !in arrays && n <= |a|
    ensures var arrays' := arrays[name := a]; var views' := views[c := View(name, 0, n, |a|)];
            && Valid(arrays', views') && Read(arrays', views'[c]) == a[..n]
            && forall d {:trigger views'[d]} :: d in views && d != c ==> Read(arrays', views'[d]) == Read(arrays, views[d])
  {
    var views' := views[c := View(name, 0, n, |a|)];
    forall d, e | d in views' && e in views' && d != e ensures Apart(views'[d], views'[e]) {
      if d != c && e != c { assert Apart(views[d], views[e]); }
      else if d != c { assert Fits(arrays, views[d]); }
      else { assert Fits(arrays, views[e]); }
    }
  }

  /** `arr[:len:len]`: a second view without spare capacity. */
  lemma {:induction false} Bounded(arrays: Arrays, views: Views, c: nat, d: nat)
    requires Valid(arrays, views) && c in views && d !in views
    ensures Valid(arrays, views[d := views[c].(cap := views[c].len)])
  {
    var views' := views[d := views[c].(cap := views[c].len)];
    forall e, f | e in views' && f in views' && e != f ensures Apart(views'[e], views'[f]) {
      if e == d || f == d {
        if e != c && f != c {
          assert Apart(views[if e == d then c else e], views[if f == d then c else f]);
        }
      } else {
        assert Apart(views[e], views[f]);
      }
    }
  }

  /** Two halves of one view: only the right one keeps the spare capacity. */
  lemma {:induction false} Halves(arrays: Arrays, views: Views, c: nat, d: nat, offset: nat)
    requires Valid(arrays, views) && c in views && d !in views && offset <= views[c].len
    ensures var v := views[c];
            var views' := views[c := v.(len := offset, cap := offset)][d := View(v.backing, v.start + offset, v.len - offset, v.cap - offset)];
            && Valid(arrays, views') && Read(arrays, views'[c]) == Read(arrays, v)[..offset] && Read(arrays, views'[d]) == Read(arrays, v)[offset..]
  {
    var v := views[c];
    var views' := views[c := v.(len := offset, cap := offset)][d := View(v.backing, v.start + offset, v.len - offset, v.cap - offset)];
    assert Fits(arrays, v);
    forall e, f | e in views' && f in views' && e != f ensures Apart(views'[e], views'[f]) {
      if e != d && f != d { assert Apart(views[e], views[f]); }
      else if e == d && f != c { assert Apart(v, views[f]); }
      else if f == d && e != c { assert Apart(views[e], v); }
    }
  }

  class Contents {
    var arrays: Arrays
    var views: Views
    var nextArray: nat

    ghost predicate Good()
      reads this
    {
      Valid(arrays, views) && forall a :: a in arrays ==> a < nextArray
    }

    /** What content `c` reads. */
    ghost function Value(c: nat): seq<int>
      reads this
      requires Good() && c in views
    {
      assert Fits(arrays, views[c]);
      Read(arrays, views[c])
    }

    /** All contents but `c` and `d` read as before. */
    twostate predicate OthersKeep(c: nat, d: nat)
      reads this
      requires old(Good()) && Good()
    {
      && (forall e {:trigger e in views} :: e in old(views) && e != c && e != d ==> e in views)
      && (forall e {:trigger Value(e)} :: e in old(views) && e != c && e != d ==> e in views && Value(e) == old(Value(e)))
    }

    constructor ()
      ensures Good() && views == map[]
    {
      arrays, views, nextArray := map[], map[], 0;
    }

    /** A content with an array of its own, and perhaps room to grow. */
    method Place(c: nat, xs: seq<int>, spare: nat)
      requires Good()
      modifies this
      ensures Good() && views.Keys == old(views).Keys + {c} && Value(c) == xs && OthersKeep(c, c)
      ensures old(nextArray) == views[c].backing < nextArray && views == old(views)[c := views[c]]
    {
      var a := xs + seq(spare, i => 0);
      NewArray(arrays, views, c, nextArray, a, |xs|);
      arrays, views, nextArray := arrays[nextArray := a], views[c := View(nextArray, 0, |xs|, |a|)], nextArray + 1;
    }

    /** `append`: in place if there is room, else into a new array. */
    method Append(c: nat, xs: seq<int>, spare: nat)
      requires Good() && c in views
      modifies this
      ensures Good() && views.Keys == old(views).Keys && Value(c) == old(Value(c)) + xs && OthersKeep(c, c)
      ensures views[c].backing == old(views[c].backing) <==> xs == [] || old(views[c].len) + |xs| <= old(views[c].cap)
    {
      var v := views[c];
      assert Fits(arrays, v);
      if xs == [] {
        return;
      }
      if v.len + |xs| <= v.cap {
        GrowInPlace(arrays, views, c, xs);
        arrays := arrays[v.backing := Write(arrays[v.backing], End(v), xs)];
        views := views[c := Grown(v, |xs|)];
      } else {
        Place(c, Read(arrays, v) + xs, spare);
      }
    }

    /** `copyContent` */
    method Copy(c: nat, d: nat)
      requires Good() && c in views && d !in views
      modifies this
      ensures Good() && views.Keys == old(views).Keys + {d} && Value(d) == old(Value(c)) && OthersKeep(d, d)
    {
      Bounded(arrays, views, c, d);
      views := views[d := views[c].(cap := views[c].len)];
    }

    /** The two halves of a slice. */
    method Halve(c: nat, d: nat, offset: nat)
      requires Good() && c in views && d !in views && offset <= |Value(c)|
      modifies `views
      ensures Good() && views.Keys == old(views).Keys + {d}
      ensures Value(c) == old(Value(c))[..offset] && Value(d) == old(Value(c))[offset..] && OthersKeep(c, d)
      ensures views[c].backing == views[d].backing == old(views[c].backing)
    {
      var v := views[c];
      assert Fits(arrays, v);
      Halves(arrays, views, c, d, offset);
      views := views[c := v.(len := offset, cap := offset)][d := View(v.backing, v.start + offset, v.len - offset, v.cap - offset)];
    }

    /** `slices.Clone` of a content's own slice. */
    method CopyOut(c: nat, spare: nat)
      requires Good() && c in views
      modifies this
      ensures Good() && views.Keys == old(views).Keys && Value(c) == old(Value(c)) && OthersKeep(c, c)
      ensures old(nextArray) == views[c].backing < nextArray && views == old(views)[c := views[c]]
    {
      assert Fits(arrays, views[c]);
      Place(c, Read(arrays, views[c]), spare);
    }

    /** `spliceContent`: `c` keeps what is before `offset`, `d` gets the rest; a half that
        holds little of the array is copied out. */
    method Splice(c: nat, d: nat, offset: nat, spareLeft: nat, spareRight: nat)
      requires Good() && c in views && d !in views && offset <= |Value(c)|
      modifies this
      ensures Good() && views.Keys == old(views).Keys + {d}
      ensures Value(c) == old(Value(c))[..offset] && Value(d) == old(Value(c))[offset..] && OthersKeep(c, d)
      ensures views[c].backing == old(views[c].backing) <==> 2 * |Value(c)| >= old(views[c].cap)
      ensures views[d].backing == old(views[c].backing) <==> 4 * |Value(d)| >= old(views[c].cap)
    {
      assert Fits(arrays, views[c]);
      var length, pinned := views[c].len, views[c].cap;
      Halve(c, d, offset);
      ghost var left, right := Value(c), Value(d);
      if 2 * offset < pinned {
        CopyOut(c, spareLeft);
      }
      assert Value(c) == left && Value(d) == right;
      if 4 * (length - offset) < pinned {
        CopyOut(d, spareRight);
      }
      assert Value(c) == left && Value(d) == right;
    }

    /** `mergeContentWith` */
    method Merge(c: nat, r: nat, spare: nat)
      requires Good() && c in views && r in views && c != r
      modifies this
      ensures Good() && views.Keys == old(views).Keys && Value(c) == old(Value(c)) + old(Value(r)) && OthersKeep(c, c)
    {
      assert Fits(arrays, views[r]);
      Append(c, Read(arrays, views[r]), spare);
    }
  }
}

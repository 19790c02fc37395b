/** Turning any bytes into well-formed UTF-8, as section 8.1.1 of the WHATWG Encoding
    Standard does in replacement mode, and counting UTF-16 units. */
module Utf8Text {
  import opened VarInts

  // ---------------------------------------------------------------- the decoder's state

  /** What the decoder remembers between two bytes. */
  datatype State = State(codePoint: int, needed: nat, seen: nat, lower: int, upper: int)

  const Idle: State := State(0, 0, 0, 0x80, 0xbf)

  /** How many bytes follow a leading byte; none for a byte that leads nothing. */
  function Following(b: Byte): nat {
    if 0xc2 <= b <= 0xdf then 1 else if 0xe0 <= b <= 0xef then 2 else if 0xf0 <= b <= 0xf4 then 3 else 0
  }

  function Led(b: Byte): State {
    if 0xc2 <= b <= 0xdf then State(b - 0xc0, 1, 0, 0x80, 0xbf)
    else if 0xe0 <= b <= 0xef then State(b - 0xe0, 2, 0, if b == 0xe0 then 0xa0 else 0x80, if b == 0xed then 0x9f else 0xbf)
    else if 0xf0 <= b <= 0xf4 then State(b - 0xf0, 3, 0, if b == 0xf0 then 0x90 else 0x80, if b == 0xf4 then 0x8f else 0xbf)
    else Idle
  }

  function Continued(st: State, b: Byte): State {
    State(st.codePoint * 64 + (b - 0x80), st.needed, st.seen + 1, 0x80, 0xbf)
  }

  predicate Accepts(st: State, b: Byte) { st.lower <= b <= st.upper }

  predicate Tail(b: Byte) { 0x80 <= b <= 0xbf }

  /** `p` is the beginning of a character of several bytes. */
  predicate Begins(p: seq<Byte>) {
    && 0 < |p| <= Following(p[0]) + 1 <= 4 && Following(p[0]) > 0
    && (|p| > 1 ==> Accepts(Led(p[0]), p[1])) && (|p| > 2 ==> Tail(p[2])) && (|p| > 3 ==> Tail(p[3]))
  }

  /** The state after the bytes `p`. */
  function Reached(p: seq<Byte>): State {
    if |p| == 0 then Idle
    else if |p| == 1 then Led(p[0])
    else if |p| == 2 then Continued(Led(p[0]), p[1])
    else if |p| == 3 then Continued(Continued(Led(p[0]), p[1]), p[2])
    else Continued(Continued(Continued(Led(p[0]), p[1]), p[2]), p[3])
  }

  ghost predicate After(st: State, p: seq<Byte>) {
    (p == [] || Begins(p)) && st == Reached(p)
  }

  /** One byte more of a character. */
  lemma {:induction false} OneByteMore(st: State, p: seq<Byte>, b: Byte)
    requires After(st, p) && p != [] && |p| <= Following(p[0])
    ensures st.needed == Following(p[0]) > 0 && st.seen == |p| - 1
    ensures Accepts(st, b) ==> After(Continued(st, b), p + [b])
  {
  }

  // ---------------------------------------------------------------- characters

  /** The bytes of one character. */
  predicate Char(p: seq<Byte>) {
    (|p| == 1 && p[0] < 0x80) || (Begins(p) && |p| == Following(p[0]) + 1)
  }

  predicate Scalar(c: int) {
    0 <= c < 0x110000 && !(0xd800 <= c < 0xe000)
  }

  /** The bytes of a scalar value, as the standard defines them. */
  function Encode(c: int): seq<Byte>
    requires Scalar(c)
  {
    if c < 0x80 then [c]
    else if c < 0x800 then [0xc0 + c / 64, 0x80 + c % 64]
    else if c < 0x1_0000 then [0xe0 + c / 4096, 0x80 + c / 64 % 64, 0x80 + c % 64]
    else [0xf0 + c / 0x4_0000, 0x80 + c / 4096 % 64, 0x80 + c / 64 % 64, 0x80 + c % 64]
  }

  /** A scalar value's bytes are a character; four bytes mean two UTF-16 units. */
  lemma {:induction false} EncodeIsChar(c: int)
    requires Scalar(c)
    ensures Char(Encode(c)) && Width(Encode(c)) == if c >= 0x1_0000 then 2 else 1
  {
  }

  /** And a character is the bytes of the scalar value that the decoder has computed. */
  lemma {:induction false} CharIsEncoded(p: seq<Byte>)
    requires Char(p)
    ensures var c := if |p| == 1 then p[0] else Reached(p).codePoint; Scalar(c) && Encode(c) == p
  {
    if |p| == 2 {
      TwoBytes(p[0], p[1]);
    } else if |p| == 3 {
      ThreeBytes(p[0], p[1], p[2]);
    } else if |p| == 4 {
      FourBytes(p[0], p[1], p[2], p[3]);
    }
  }

  lemma {:induction false} TwoBytes(a: Byte, b: Byte)
    requires 0xc2 <= a <= 0xdf && Tail(b)
    ensures var c := (a - 0xc0) * 64 + (b - 0x80); Scalar(c) && Encode(c) == [a, b]
  {
  }

  lemma {:induction false} ThreeBytes(a: Byte, b: Byte, d: Byte)
    requires 0xe0 <= a <= 0xef && Accepts(Led(a), b) && Tail(d)
    ensures var c := ((a - 0xe0) * 64 + (b - 0x80)) * 64 + (d - 0x80); Scalar(c) && Encode(c) == [a, b, d]
  {
    var c := ((a - 0xe0) * 64 + (b - 0x80)) * 64 + (d - 0x80);
    assert c / 64 == (a - 0xe0) * 64 + (b - 0x80);
    assert c / 4096 == a - 0xe0;
  }

  lemma {:induction false} FourBytes(a: Byte, b: Byte, d: Byte, e: Byte)
    requires 0xf0 <= a <= 0xf4 && Accepts(Led(a), b) && Tail(d) && Tail(e)
    ensures var c := (((a - 0xf0) * 64 + (b - 0x80)) * 64 + (d - 0x80)) * 64 + (e - 0x80); Scalar(c) && Encode(c) == [a, b, d, e]
  {
    var c := (((a - 0xf0) * 64 + (b - 0x80)) * 64 + (d - 0x80)) * 64 + (e - 0x80);
    assert c / 64 == ((a - 0xf0) * 64 + (b - 0x80)) * 64 + (d - 0x80);
    assert c / 4096 == (a - 0xf0) * 64 + (b - 0x80);
    assert c / 0x4_0000 == a - 0xf0;
  }

  /** U+FFFD */
  const Replacement: seq<Byte> := [0xef, 0xbf, 0xbd]

  // ---------------------------------------------------------------- text

  ghost predicate Chars(cs: seq<seq<Byte>>) {
    forall i {:trigger Char(cs[i])} :: 0 <= i < |cs| ==> Char(cs[i])
  }

  /** The bytes of the first `n` characters. */
  function TextTo(cs: seq<seq<Byte>>, n: nat): seq<Byte>
    requires n <= |cs|
  {
    if n == 0 then [] else TextTo(cs, n - 1) + cs[n - 1]
  }

  function Text(cs: seq<seq<Byte>>): seq<Byte> { TextTo(cs, |cs|) }

  ghost predicate WellFormed(s: seq<Byte>) {
    exists cs :: Chars(cs) && Text(cs) == s
  }

  function Width(p: seq<Byte>): nat { if |p| == 4 then 2 else 1 }

  /** The UTF-16 length. */
  function Units(cs: seq<seq<Byte>>, n: nat): nat
    requires n <= |cs|
  {
    if n == 0 then 0 else Units(cs, n - 1) + Width(cs[n - 1])
  }

  lemma {:induction false} TextOfPrefix(cs: seq<seq<Byte>>, c: seq<Byte>, n: nat)
    requires n <= |cs|
    ensures TextTo(cs + [c], n) == TextTo(cs, n) && Units(cs + [c], n) == Units(cs, n)
  {
    if n > 0 { TextOfPrefix(cs, c, n - 1); }
  }

  lemma {:induction false} TextAppend(cs: seq<seq<Byte>>, c: seq<Byte>)
    requires Chars(cs) && Char(c)
    ensures Chars(cs + [c]) && Text(cs + [c]) == Text(cs) + c && Units(cs + [c], |cs + [c]|) == Units(cs, |cs|) + Width(c)
  {
    TextOfPrefix(cs, c, |cs|);
    forall i | 0 <= i < |cs| + 1 ensures Char((cs + [c])[i]) { if i < |cs| { assert Char(cs[i]); } }
  }

  lemma {:induction false} TextGrows(cs: seq<seq<Byte>>, m: nat, n: nat)
    requires m <= n <= |cs|
    ensures TextTo(cs, m) <= TextTo(cs, n)
  {
    if m < n { TextGrows(cs, m, n - 1); }
  }

  lemma {:induction false} PartOf(s: seq<Byte>, out: seq<Byte>, e: seq<Byte>, n: nat)
    requires out + e <= s && n <= |e|
    ensures |out| + n <= |s| && s[|out|..|out| + n] == e[..n] && (n < |e| ==> |out| + n < |s| && s[|out| + n] == e[n])
  {
    assert s == out + e + s[|out| + |e|..];
  }

  /** At the boundary before character `k` stand its bytes. */
  lemma {:induction false} CharAt(s: seq<Byte>, all: seq<seq<Byte>>, k: nat, n: nat)
    requires Chars(all) && Text(all) == s && k < |all| && n <= |all[k]|
    ensures Char(all[k]) && TextTo(all, k + 1) == TextTo(all, k) + all[k]
    ensures var o := |TextTo(all, k)|; o + |all[k]| <= |s| && s[o..o + n] == all[k][..n] && (n < |all[k]| ==> s[o + n] == all[k][n])
  {
    TextGrows(all, k + 1, |all|);
    PartOf(s, TextTo(all, k), all[k], n);
    PartOf(s, TextTo(all, k), all[k], |all[k]|);
  }

  // ---------------------------------------------------------------- characters and rejected pieces

  /** The bytes of a character, or the beginning of one. */
  ghost predicate IsStart(q: seq<Byte>) {
    exists c :: Char(c) && q <= c
  }

  /** The bytes from `i` to `j` are a character; or they begin one as far as the bytes allow,
      and it is not finished; or they are a single byte that begins none. */
  ghost predicate Piece(s: seq<Byte>, i: nat, j: nat) {
    && i < j <= |s|
    && (|| Char(s[i..j])
        || (IsStart(s[i..j]) && (j == |s| || !IsStart(s[i..j + 1])))
        || (j == i + 1 && !IsStart(s[i..j])))
  }

  ghost predicate PieceAt(s: seq<Byte>, pieces: seq<seq<Byte>>, k: nat)
    requires k < |pieces|
  {
    Piece(s, |TextTo(pieces, k)|, |TextTo(pieces, k)| + |pieces[k]|)
  }

  /** The text begins with these pieces. */
  ghost predicate Pieces(s: seq<Byte>, pieces: seq<seq<Byte>>) {
    Text(pieces) <= s && forall k {:trigger PieceAt(s, pieces, k)} :: 0 <= k < |pieces| ==> PieceAt(s, pieces, k)
  }

  /** A character stays; any other piece becomes U+FFFD. */
  function Repaired(piece: seq<Byte>): seq<Byte> {
    if Char(piece) then piece else [0xef, 0xbf, 0xbd]
  }

  function AllRepaired(pieces: seq<seq<Byte>>): (cs: seq<seq<Byte>>)
    ensures |cs| == |pieces| && Chars(cs)
  {
    seq(|pieces|, i requires 0 <= i < |pieces| => Repaired(pieces[i]))
  }

  /** The decoder's own view of the beginning of a character is right. */
  lemma {:induction false} StartIsBegins(q: seq<Byte>)
    requires q != []
    ensures IsStart(q) <==> Begins(q) || (|q| == 1 && q[0] < 0x80)
  {
    if Begins(q) {
      var n := Following(q[0]) + 1;
      var second := if |q| > 1 then q[1] else Led(q[0]).lower;
      var all := [q[0], second, if |q| > 2 then q[2] else 0x80, if |q| > 3 then q[3] else 0x80];
      assert Char(all[..n]) && q <= all[..n];
    } else if |q| == 1 && q[0] < 0x80 {
      assert Char(q) && q <= q;
    }
  }

  /** There is only one piece at a place. */
  lemma {:induction false} OnePiece(s: seq<Byte>, i: nat, j: nat, k: nat)
    requires Piece(s, i, j) && Piece(s, i, k) && j <= k
    ensures j == k
  {
  }

  /** The bytes alone decide into which pieces a text falls. */
  lemma {:induction false} PiecesUnique(s: seq<Byte>, a: seq<seq<Byte>>, b: seq<seq<Byte>>, n: nat)
    requires Pieces(s, a) && Pieces(s, b) && n <= |a| && n <= |b|
    ensures a[..n] == b[..n] && TextTo(a, n) == TextTo(b, n)
  {
    if n > 0 {
      PiecesUnique(s, a, b, n - 1);
      PieceIs(s, a, n - 1);
      PieceIs(s, b, n - 1);
      SamePiece(s, |TextTo(a, n - 1)|, a[n - 1], b[n - 1]);
      assert a[..n] == a[..n - 1] + [a[n - 1]] && b[..n] == b[..n - 1] + [b[n - 1]];
    }
  }

  /** The piece stands in the text. */
  ghost predicate StandsAt(s: seq<Byte>, i: nat, q: seq<Byte>) {
    Piece(s, i, i + |q|) && s[i..i + |q|] == q
  }

  lemma {:induction false} PieceIs(s: seq<Byte>, pieces: seq<seq<Byte>>, k: nat)
    requires Pieces(s, pieces) && k < |pieces|
    ensures StandsAt(s, |TextTo(pieces, k)|, pieces[k])
  {
    assert PieceAt(s, pieces, k);
    TextGrows(pieces, k + 1, |pieces|);
    PartOf(s, TextTo(pieces, k), pieces[k], |pieces[k]|);
  }

  lemma {:induction false} SamePiece(s: seq<Byte>, i: nat, a: seq<Byte>, b: seq<Byte>)
    requires StandsAt(s, i, a) && StandsAt(s, i, b)
    ensures a == b
  {
    if |a| <= |b| { OnePiece(s, i, i + |a|, i + |b|); } else { OnePiece(s, i, i + |b|, i + |a|); }
  }

  lemma {:induction false} PieceStays(s: seq<Byte>, pieces: seq<seq<Byte>>, q: seq<Byte>, k: nat)
    requires k < |pieces| && PieceAt(s, pieces, k)
    ensures PieceAt(s, pieces + [q], k)
  {
    TextOfPrefix(pieces, q, k);
  }

  lemma {:induction false} PieceComes(s: seq<Byte>, pieces: seq<seq<Byte>>, q: seq<Byte>)
    requires Piece(s, |Text(pieces)|, |Text(pieces)| + |q|)
    ensures PieceAt(s, pieces + [q], |pieces|) && Text(pieces + [q]) == Text(pieces) + q
  {
    TextOfPrefix(pieces, q, |pieces|);
  }

  lemma {:induction false} NextPiece(s: seq<Byte>, pieces: seq<seq<Byte>>, q: seq<Byte>)
    requires Pieces(s, pieces) && Text(pieces) + q <= s && Piece(s, |Text(pieces)|, |Text(pieces)| + |q|)
    ensures Pieces(s, pieces + [q]) && Text(pieces + [q]) == Text(pieces) + q
  {
    var more := pieces + [q];
    PieceComes(s, pieces, q);
    forall k | 0 <= k < |more| ensures PieceAt(s, more, k) {
      if k < |pieces| { PieceStays(s, pieces, q, k); }
    }
  }

  lemma {:induction false} NextRepaired(pieces: seq<seq<Byte>>, q: seq<Byte>)
    ensures Text(AllRepaired(pieces + [q])) == Text(AllRepaired(pieces)) + Repaired(q)
  {
    var cs := AllRepaired(pieces);
    assert AllRepaired(pieces + [q]) == cs + [Repaired(q)];
    TextOfPrefix(cs, Repaired(q), |cs|);
  }

  // ---------------------------------------------------------------- one byte at a time

  /** The pieces before `p` are repaired in `out`, and `p` is being read. */
  ghost predicate Loop(s: seq<Byte>, i: nat, out: seq<Byte>, pieces: seq<seq<Byte>>, p: seq<Byte>, st: State) {
    && Pieces(s, pieces) && out == Text(AllRepaired(pieces)) && |p| <= i <= |s| && Text(pieces) == s[..i - |p|]
    && s[i - |p|..i] == p && After(st, p) && (p != [] ==> |p| <= Following(p[0]))
  }

  /** The input is `Text(all)`, and `k` of its characters have been copied. */
  ghost predicate Copying(s: seq<Byte>, i: nat, out: seq<Byte>, all: seq<seq<Byte>>, k: nat, p: seq<Byte>) {
    && Chars(all) && Text(all) == s && k <= |all| && out == TextTo(all, k) && |p| <= i && i - |p| == |out|
    && (if k < |all| then |p| < |all[k]| else p == [])
  }

  lemma {:induction false} Written(s: seq<Byte>, i: nat, j: nat, out: seq<Byte>, pieces: seq<seq<Byte>>, q: seq<Byte>)
    requires Pieces(s, pieces) && out == Text(AllRepaired(pieces)) && Piece(s, i, j) && Text(pieces) == s[..i] && q == s[i..j]
    ensures Loop(s, j, out + Repaired(q), pieces + [q], [], Idle)
  {
    assert s[..i] + q == s[..j];
    NextPiece(s, pieces, q);
    NextRepaired(pieces, q);
  }

  lemma {:induction false} LeadsItself(s: seq<Byte>, i: nat)
    requires i < |s| && s[i] < 0x80
    ensures s[i..i + 1] == [s[i]] && Piece(s, i, i + 1) && Repaired([s[i]]) == [s[i]]
  {
    assert Char(s[i..i + 1]);
  }

  lemma {:induction false} LeadsOn(s: seq<Byte>, i: nat, out: seq<Byte>, pieces: seq<seq<Byte>>)
    requires i < |s| && Loop(s, i, out, pieces, [], Idle) && Following(s[i]) > 0
    ensures Loop(s, i + 1, out, pieces, [s[i]], Led(s[i]))
  {
    assert s[i..i + 1] == [s[i]];
  }

  /** A byte that no character begins with. */
  lemma {:induction false} LeadsNothing(s: seq<Byte>, i: nat)
    requires i < |s| && s[i] >= 0x80 && Following(s[i]) == 0
    ensures s[i..i + 1] == [s[i]] && Piece(s, i, i + 1) && Repaired([s[i]]) == Replacement
  {
    StartIsBegins(s[i..i + 1]);
  }

  /** A character that is not finished, at the end or before a byte that does not belong to it. */
  lemma {:induction false} BrokenOff(s: seq<Byte>, i: nat, p: seq<Byte>, st: State)
    requires 0 < |p| <= i <= |s| && s[i - |p|..i] == p && After(st, p) && |p| <= Following(p[0]) && (i < |s| ==> !Accepts(st, s[i]))
    ensures Piece(s, i - |p|, i) && Repaired(p) == Replacement
  {
    StartIsBegins(p);
    if i < |s| {
      assert s[i - |p|..i + 1] == p + [s[i]];
      StartIsBegins(p + [s[i]]);
    }
  }

  /** A well-formed input: the next byte is one of character `k`, and is not refused. */
  lemma {:induction false} Copied(s: seq<Byte>, i: nat, out: seq<Byte>, all: seq<seq<Byte>>, k: nat, p: seq<Byte>, st: State)
    requires Copying(s, i, out, all, k, p) && i < |s| && s[i - |p|..i] == p && After(st, p)
    ensures k < |all|
    ensures if |p| + 1 < |all[k]| then Copying(s, i + 1, out, all, k, p + [s[i]]) else p + [s[i]] == all[k] && Copying(s, i + 1, out + all[k], all, k + 1, [])
    ensures if p == [] then s[i] < 0x80 || Following(s[i]) > 0 else Accepts(st, s[i])
    ensures p == [] ==> (s[i] < 0x80 <==> |all[k]| == 1)
    ensures p != [] ==> |all[k]| == Following(p[0]) + 1
  {
    CharAt(s, all, k, |p|);
    var e := all[k];
    assert p == e[..|p|] && s[i] == e[|p|];
    assert e[..|p|] + [e[|p|]] == e[..|p| + 1];
    assert k + 1 < |all| ==> Char(all[k + 1]);
  }

  lemma {:induction false} NothingLeft(s: seq<Byte>, out: seq<Byte>, all: seq<seq<Byte>>, k: nat, p: seq<Byte>)
    requires Copying(s, |s|, out, all, k, p)
    ensures p == [] && out == s
  {
    if k < |all| { CharAt(s, all, k, 0); }
  }

  /** A byte where a character begins. */
  method Lead(s: seq<Byte>, i: nat, out: seq<Byte>, ghost pieces: seq<seq<Byte>>, ghost all: seq<seq<Byte>>, ghost k: nat, ghost good: bool)
    returns (i': nat, out': seq<Byte>, st: State, ghost pieces': seq<seq<Byte>>, ghost p: seq<Byte>, ghost k': nat)
    requires i < |s| && Loop(s, i, out, pieces, [], Idle) && (good ==> Copying(s, i, out, all, k, []))
    ensures i' == i + 1 && Loop(s, i', out', pieces', p, st) && (good ==> Copying(s, i', out', all, k', p))
  {
    var b := s[i];
    i', out', st, pieces', p, k' := i + 1, out, Idle, pieces, [], k;
    if good { Copied(s, i, out, all, k, [], Idle); }
    assert [] + [b] == [b];
    if b <= 0x7f {
      LeadsItself(s, i);
      Written(s, i, i + 1, out, pieces, [b]);
      out', pieces', k' := out + [b], pieces + [[b]], k + 1;
    } else if Following(b) > 0 {
      LeadsOn(s, i, out, pieces);
      st, p := Led(b), [b];
    } else {
      LeadsNothing(s, i);
      Written(s, i, i + 1, out, pieces, [b]);
      out', pieces' := out + Replacement, pieces + [[b]];
    }
  }

  /** A byte inside a character; one that is refused is looked at again as a leading byte. */
  method Continue(s: seq<Byte>, i: nat, out: seq<Byte>, st: State, ghost pieces: seq<seq<Byte>>, ghost p: seq<Byte>, ghost all: seq<seq<Byte>>, ghost k: nat, ghost good: bool)
    returns (i': nat, out': seq<Byte>, st': State, ghost pieces': seq<seq<Byte>>, ghost p': seq<Byte>, ghost k': nat)
    requires i < |s| && p != [] && Loop(s, i, out, pieces, p, st) && (good ==> Copying(s, i, out, all, k, p))
    ensures i' == i + 1 || (i' == i && p' == [])
    ensures Loop(s, i', out', pieces', p', st') && (good ==> Copying(s, i', out', all, k', p'))
  {
    var b := s[i];
    i', out', st', pieces', p', k' := i, out, Idle, pieces, [], k;
    if good { Copied(s, i, out, all, k, p, st); }
    OneByteMore(st, p, b);
    if !Accepts(st, b) {
      BrokenOff(s, i, p, st);
      Written(s, i - |p|, i, out, pieces, p);
      out', pieces' := out + Replacement, pieces + [p];
      return;
    }
    st', p', i' := Continued(st, b), p + [b], i + 1;
    assert p'[0] == p[0] && s[i - |p|..i + 1] == p';
    if st'.seen == st'.needed {
      CharIsEncoded(p');
      Written(s, i - |p|, i + 1, out, pieces, p');
      out', pieces', k' := out + Encode(st'.codePoint), pieces + [p'], k + 1;
      st', p' := Idle, [];
    }
  }

  /** `replaceMalformedUTF8`: the text falls into characters, which are kept, and pieces that
      are none, each of which becomes one U+FFFD. */
  method ReplaceMalformed(s: seq<Byte>) returns (out: seq<Byte>, ghost pieces: seq<seq<Byte>>)
    ensures Pieces(s, pieces) && Text(pieces) == s && out == Text(AllRepaired(pieces))
    ensures WellFormed(s) ==> out == s
  {
    ghost var good := WellFormed(s);
    ghost var all: seq<seq<Byte>> := [];
    if good { all :| Chars(all) && Text(all) == s; }
    ghost var k: nat, p: seq<Byte> := 0, [];
    assert |all| > 0 && good ==> Char(all[0]);
    out, pieces := [], [];
    var st, i := Idle, 0;
    while i < |s|
      invariant Loop(s, i, out, pieces, p, st)
      invariant good ==> Copying(s, i, out, all, k, p)
      decreases |s| - i, |p|
    {
      if st.needed == 0 {
        i, out, st, pieces, p, k := Lead(s, i, out, pieces, all, k, good);
      } else {
        i, out, st, pieces, p, k := Continue(s, i, out, st, pieces, p, all, k, good);
      }
    }
    if good { NothingLeft(s, out, all, k, p); }
    if st.needed != 0 {
      BrokenOff(s, |s|, p, st);
      Written(s, |s| - |p|, |s|, out, pieces, p);
      out, pieces := out + Replacement, pieces + [p];
    }
    assert s[..|s|] == s;
  }

  // ---------------------------------------------------------------- normalising

  /** No two characters begin at the same place. */
  lemma {:induction false} OneCharHere(s: seq<Byte>, i: nat, c: seq<Byte>, d: seq<Byte>)
    requires Char(c) && Char(d) && i + |c| <= |s| && i + |d| <= |s| && s[i..i + |c|] == c && s[i..i + |d|] == d
    ensures c == d
  {
    assert c[0] == s[i] == d[0];
  }

  /** A character of `n` bytes stands at `i`. */
  predicate HereIs(s: seq<Byte>, i: nat, n: nat) {
    i + n <= |s| && Char(s[i..i + n])
  }

  /** `utf8.DecodeRuneInString`: the length of the character at `i`, if one begins there. */
  method DecodeRune(s: seq<Byte>, i: nat) returns (size: nat)
    requires i < |s|
    ensures if size > 0 then HereIs(s, i, size) else forall n :: !HereIs(s, i, n)
  {
    var b := s[i];
    if b < 0x80 {
      return 1;
    }
    var n := Following(b) + 1;
    if n > 1 && i + n <= |s| && Begins(s[i..i + n]) {
      return n;
    }
    size := 0;
    forall m: nat ensures !HereIs(s, i, m) {
      assert 0 < m && i + m <= |s| ==> s[i..i + m][0] == b;
    }
  }

  /** The rest of a well-formed text begins with a character. */
  lemma {:induction false} RuneOfText(s: seq<Byte>, i: nat, all: seq<seq<Byte>>, k: nat, size: nat)
    requires Chars(all) && Text(all) == s && k <= |all| && i < |s| && TextTo(all, k) == s[..i]
    requires if size > 0 then HereIs(s, i, size) else forall n :: !HereIs(s, i, n)
    ensures size > 0 && i + size <= |s| && k < |all| && TextTo(all, k + 1) == s[..i + size]
  {
    CharAt(s, all, k, |all[k]|);
    var e := all[k];
    assert HereIs(s, i, |e|) && s[i..i + |e|] == e;
    OneCharHere(s, i, e, s[i..i + size]);
    assert s[..i] + s[i..i + size] == s[..i + size];
  }

  /** The loop of `normalizeNonASCIITextUTF8WithLength`: the units of well-formed text, or
      the news that it is not. */
  method CountUnits(s: seq<Byte>) returns (ok: bool, units: nat, ghost cs: seq<seq<Byte>>)
    ensures ok ==> Chars(cs) && Text(cs) == s && units == Units(cs, |cs|)
    ensures ok <==> WellFormed(s)
  {
    var i := 0;
    ok, units, cs := true, 0, [];
    ghost var all: seq<seq<Byte>>, k: nat := [], 0;
    ghost var good := WellFormed(s);
    if good { all :| Chars(all) && Text(all) == s; }
    while i < |s|
      invariant i <= |s| && Chars(cs) && Text(cs) == s[..i] && units == Units(cs, |cs|)
      invariant good ==> k <= |all| && TextTo(all, k) == s[..i]
      decreases |s| - i
    {
      var size := DecodeRune(s, i);
      if good { RuneOfText(s, i, all, k, size); }
      if size == 0 {
        return false, 0, [];
      }
      ghost var c := s[i..i + size];
      TextAppend(cs, c);
      assert s[..i] + c == s[..i + size];
      units, cs, i, k := units + (if size == 4 then 2 else 1), cs + [c], i + size, k + 1;
    }
    assert s[..i] == s;
  }

  /** In ASCII text each byte is a character of one unit: bytes and units are as many. */
  lemma {:induction false} AsciiText(s: seq<Byte>, cs: seq<seq<Byte>>, n: nat)
    requires n <= |s| == |cs| && forall i {:trigger cs[i]} :: 0 <= i < |s| ==> cs[i] == [s[i]] && s[i] < 0x80
    ensures Chars(cs) && TextTo(cs, n) == s[..n] && Units(cs, n) == n
  {
    forall i | 0 <= i < |cs| ensures Char(cs[i]) { assert cs[i] == [s[i]]; }
    if n > 0 {
      AsciiText(s, cs, n - 1);
      assert s[..n] == s[..n - 1] + cs[n - 1];
    }
  }

  method IsAscii(s: seq<Byte>) returns (ascii: bool)
    ensures ascii <==> forall i :: 0 <= i < |s| ==> s[i] < 0x80
  {
    for i := 0 to |s|
      invariant forall j :: 0 <= j < i ==> s[j] < 0x80
    {
      if s[i] >= 0x80 { return false; }
    }
    ascii := true;
  }

  /** `normalizeTextUTF8WithLength`: well formed, unchanged if it was, with its UTF-16 length. */
  method Normalize(s: seq<Byte>) returns (t: seq<Byte>, units: nat, ghost cs: seq<seq<Byte>>)
    ensures Chars(cs) && t == Text(cs) && units == Units(cs, |cs|)
    ensures WellFormed(s) ==> t == s
  {
    var ascii := IsAscii(s);
    if ascii {
      t, units, cs := s, |s|, seq(|s|, i requires 0 <= i < |s| => [s[i]]);
      AsciiText(s, cs, |s|);
      assert s[..|s|] == s;
      return;
    }
    var ok;
    ok, units, cs := CountUnits(s);
    if ok {
      return s, units, cs;
    }
    ghost var done;
    t, done := ReplaceMalformed(s);
    assert WellFormed(t);
    ok, units, cs := CountUnits(t);
  }

  /** Normalising twice is normalising once. */
  method NormalizeTwice(s: seq<Byte>) returns (t: seq<Byte>, u: seq<Byte>)
    ensures t == u && WellFormed(t)
  {
    var units;
    ghost var cs;
    t, units, cs := Normalize(s);
    assert WellFormed(t);
    u, units, cs := Normalize(t);
  }
}

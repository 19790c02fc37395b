/** The lazy struct writer and reader: on the wire only the first clock of a client's
    structs is given, the others follow from the lengths. */
module LazyWriter {
  import opened Wrappers
  import opened UpdateStructs
  import opened UpdateDiff

  /** A struct as it is written, without client and clock. */
  datatype Body =
    | GcBody(length: nat)
    | SkipBody(length: nat)
    | ItemBody(content: seq<Token>, origin: Option<Id>, rightOrigin: Option<Id>, parent: Token)

  datatype Fragment = Fragment(client: int, clock: nat, bodies: seq<Body>)

  function BodyLen(b: Body): nat {
    if b.ItemBody? then |b.content| else b.length
  }

  function BodyOf(s: Struct): Body {
    match s
    case Gc(_, _, n) => GcBody(n)
    case Skip(_, _, n) => SkipBody(n)
    case Item(_, _, content, o, ro, p) => ItemBody(content, o, ro, p)
  }

  function Located(c: int, clock: nat, b: Body): Struct {
    match b
    case GcBody(n) => Gc(c, clock, n)
    case SkipBody(n) => Skip(c, clock, n)
    case ItemBody(content, o, ro, p) => Item(c, clock, content, o, ro, p)
  }

  /** The reader counts the clock on by the length of each struct. */
  function ReadBodies(c: int, clock: nat, bodies: seq<Body>): seq<Struct>
    decreases |bodies|
  {
    if bodies == [] then [] else [Located(c, clock, bodies[0])] + ReadBodies(c, clock + BodyLen(bodies[0]), bodies[1..])
  }

  function ReadFragments(fs: seq<Fragment>): seq<Struct> {
    if fs == [] then [] else ReadFragments(fs[..|fs| - 1]) + ReadBodies(fs[|fs| - 1].client, fs[|fs| - 1].clock, fs[|fs| - 1].bodies)
  }

  function EndOf(clock: nat, bodies: seq<Body>): nat
    decreases |bodies|
  {
    if bodies == [] then clock else EndOf(clock + BodyLen(bodies[0]), bodies[1..])
  }

  lemma {:induction false} ReadOneMore(c: int, clock: nat, bodies: seq<Body>, b: Body)
    ensures ReadBodies(c, clock, bodies + [b]) == ReadBodies(c, clock, bodies) + [Located(c, EndOf(clock, bodies), b)]
    ensures EndOf(clock, bodies + [b]) == EndOf(clock, bodies) + BodyLen(b)
    decreases |bodies|
  {
    if bodies != [] {
      assert (bodies + [b])[1..] == bodies[1..] + [b];
      ReadOneMore(c, clock + BodyLen(bodies[0]), bodies[1..], b);
    }
  }

  lemma {:induction false} HandedOver(front: seq<Struct>, c: int, clock: nat, bodies: seq<Body>, t: Struct)
    requires t.client == c && t.clock == EndOf(clock, bodies)
    ensures front + ReadBodies(c, clock, bodies + [BodyOf(t)]) == front + ReadBodies(c, clock, bodies) + [t]
    ensures EndOf(clock, bodies + [BodyOf(t)]) == End(t)
  {
    ReadOneMore(c, clock, bodies, BodyOf(t));
    assert Located(t.client, t.clock, BodyOf(t)) == t;
  }

  /** One fragment a client, none of them empty, the larger clients first. */
  ghost predicate OnePerClient(fs: seq<Fragment>) {
    && (forall i {:trigger fs[i].bodies} :: 0 <= i < |fs| ==> fs[i].bodies != [])
    && (forall i, j {:trigger fs[i].client, fs[j].client} :: 0 <= i < j < |fs| ==> fs[i].client > fs[j].client)
  }

  /** A fragment of `client` may follow. */
  ghost predicate MayFollow(fs: seq<Fragment>, client: int) {
    OnePerClient(fs) && forall i {:trigger fs[i].client} :: 0 <= i < |fs| ==> fs[i].client > client
  }

  lemma {:induction false} NextFragment(fs: seq<Fragment>, f: Fragment, client: int)
    requires MayFollow(fs, f.client) && f.bodies != [] && client < f.client
    ensures MayFollow(fs + [f], client)
  {
  }

  class Writer {
    var currClient: int
    var startClock: nat
    var current: seq<Body>
    var fragments: seq<Fragment>
    /** The structs handed over so far, cut at their offsets. */
    ghost var sent: seq<Struct>

    /** What a reader gets back are the structs that were handed over. */
    ghost predicate Valid()
      reads this
    {
      && ReadFragments(fragments) + ReadBodies(currClient, startClock, current) == sent
      && (current == [] ==> sent == [] && fragments == [])
      && MayFollow(fragments, currClient)
      && (current != [] ==> sent != [] && sent[|sent| - 1].client == currClient && End(sent[|sent| - 1]) == EndOf(startClock, current))
    }

    constructor ()
      ensures Valid() && sent == []
    {
      currClient, startClock, current, fragments, sent := 0, 0, [], [], [];
    }

    method Flush()
      modifies this
      ensures sent == old(sent) && currClient == old(currClient) && current == []
      ensures fragments == if old(current) == [] then old(fragments) else old(fragments) + [Fragment(currClient, old(startClock), old(current))]
      ensures ReadFragments(fragments) == ReadFragments(old(fragments)) + ReadBodies(old(currClient), old(startClock), old(current))
    {
      if current != [] {
        ghost var before := fragments;
        fragments := fragments + [Fragment(currClient, startClock, current)];
        assert fragments[..|fragments| - 1] == before;
        current := [];
      }
    }

    /** Another client begins another fragment. */
    method Switch(client: int, clock: nat)
      requires Valid() && (sent != [] ==> (client == sent[|sent| - 1].client && clock == End(sent[|sent| - 1])) || client < sent[|sent| - 1].client)
      modifies this
      ensures sent == old(sent) && currClient == client && EndOf(startClock, current) == clock
      ensures ReadFragments(fragments) + ReadBodies(currClient, startClock, current) == sent && MayFollow(fragments, client)
    {
      if current != [] && currClient != client {
        NextFragment(fragments, Fragment(currClient, startClock, current), client);
        Flush();
      }
      if current == [] {
        currClient, startClock := client, clock;
      }
    }

    /** `writeStructToLazyStructWriter`; the structs must arrive as an update lists them. */
    method WriteStruct(s: Struct, offset: nat)
      requires Valid() && offset < Len(s)
      requires sent != [] ==> Continues(sent[|sent| - 1], FromOffset(s, offset))
      modifies this
      ensures Valid() && sent == old(sent) + [FromOffset(s, offset)]
    {
      var t := FromOffset(s, offset);
      Switch(s.client, s.clock + offset);
      HandedOver(ReadFragments(fragments), currClient, startClock, current, t);
      current := current + [BodyOf(t)];
      sent := sent + [t];
    }

    /** `finishLazyStructWriting` */
    method Finish()
      requires Valid()
      modifies this
      ensures ReadFragments(fragments) == sent == old(sent) && OnePerClient(fragments)
    {
      Flush();
    }
  }

  /** An update that is written and read again is the same update. */
  method WriteUpdate(u: seq<Struct>) returns (fs: seq<Fragment>)
    requires Tiled(u)
    ensures ReadFragments(fs) == u && OnePerClient(fs)
  {
    var w := new Writer();
    for i := 0 to |u|
      invariant w.Valid() && w.sent == u[..i]
    {
      assert Tile(u, i);
      if i > 0 { assert Tile(u, i - 1); }
      w.WriteStruct(u[i], 0);
    }
    w.Finish();
    assert u[..|u|] == u;
    return w.fragments;
  }
}

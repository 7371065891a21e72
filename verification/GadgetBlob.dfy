/** `HostProxy_GadgetFS::generate_descriptor`: the polling intervals, and the walk that rewrites them. */
module GadgetBlob {
  import opened Common
  import opened Records
  import opened DescriptorTree
  import opened DescriptorIo
  import opened DescriptorValidity

  // ----- Polling intervals -----

  function Pow2(n: nat): nat {
    if n == 0 then 1 else 2 * Pow2(n - 1)
  }

  /** The integer part of the base-2 logarithm. */
  function Log2(n: nat): nat
    requires n > 0
  {
    if n == 1 then 0 else 1 + Log2(n / 2)
  }

  lemma {:induction false} Log2Bounds(n: nat)
    requires n > 0
    ensures Pow2(Log2(n)) <= n < Pow2(Log2(n) + 1)
  {
    if n > 1 {
      Log2Bounds(n / 2);
    }
  }

  lemma {:induction false} Pow2Grows(a: nat, b: nat)
    requires a <= b
    ensures Pow2(a) <= Pow2(b)
  {
    if a < b {
      Pow2Grows(a, b - 1);
    }
  }

  /** The high-speed bInterval for a full-speed one, the quotient of logarithms taken as exact. */
  function NewInterval(prior: byte): (r: byte)
    requires prior >= 1
  {
    Log2Small(8 * (prior as int));
    Log2(8 * (prior as int)) + 1
  }

  lemma Log2Small(n: nat)
    requires 0 < n < 0x800
    ensures Log2(n) <= 10
  {
    Log2Bounds(n);
    assert Pow2(11) == 0x800;
    if Log2(n) > 10 {
      Pow2Grows(11, Log2(n));
    }
  }

  /** A period of `old` frames is 8 * old microframes: the new exponent is the smallest power of two above it. */
  lemma NewIntervalIsRight(prior: byte)
    requires prior >= 1
    ensures var n := NewInterval(prior) as int;
            4 <= n <= 11 && Pow2(n - 1) <= 8 * (prior as int) < Pow2(n)
  {
    var m := 8 * (prior as int);
    Log2Bounds(m);
    Log2Small(m);
    assert NewInterval(prior) as int == Log2(m) + 1;
    assert Pow2(3) == 8;
    if Log2(m) < 3 {
      Pow2Grows(Log2(m) + 1, 3);
    }
  }

  // ----- The walk over the bytes -----

  /**
   The inner loop: `pointer` steps from endpoint to endpoint by the length byte it reads, and overwrites the
   interval it finds. None is a read beyond the buffer, or an interval of 0, whose logarithm is not a number.
   */
  function WalkEndpointBytes(b: Bytes, p: nat, m: nat): Option<(Bytes, nat)>
    decreases m
  {
    if m == 0 then Some((b, p))
    else if p + 6 >= |b| || b[p + 6] == 0 then None
    else WalkEndpointBytes(b[p + 6 := NewInterval(b[p + 6])], p + b[p], m - 1)
  }

  /** The interface, HID and generic descriptors are skipped by their lengths. */
  function Skip(i: Interface): nat {
    i.desc[0] as int + (if i.hid.Some? then |i.hid.value| else 0) + TotalLength(i.generics)
  }

  /** `get_interface`: the active alternate, or NULL. */
  function ActiveOf(g: Option<Group>, a: int): Option<Interface> {
    if g.Some? && 0 <= a < |g.value.alternates| then g.value.alternates[a] else None
  }

  /** Buffer and pointer after `k` turns of the loop; None is undefined, by NULL or in the inner loop. */
  function WalkState(b: Bytes, gs: seq<Option<Group>>, active: seq<int>, k: nat): Option<(Bytes, nat)>
    requires k <= |gs| == |active|
  {
    if k == 0 then Some((b, 9))
    else
      var before, i := WalkState(b, gs, active, k - 1), ActiveOf(gs[k - 1], active[k - 1]);
      if before == None || i == None then None
      else WalkEndpointBytes(before.value.0, before.value.1 + Skip(i.value), i.value.NumEndpoints())
  }

  lemma {:induction false} EndpointWalkKeeps(b: Bytes, p: nat, m: nat)
    requires WalkEndpointBytes(b, p, m).Some?
    ensures var r := WalkEndpointBytes(b, p, m).value;
            |r.0| == |b| && p <= r.1 && forall j :: 0 <= j < p && j < |b| ==> r.0[j] == b[j]
    decreases m
  {
    if m > 0 {
      EndpointWalkKeeps(b[p + 6 := NewInterval(b[p + 6])], p + b[p], m - 1);
    }
  }

  /** Whatever the walk hits, it changes neither the length nor the configuration descriptor. */
  lemma {:induction false} WalkKeepsHeader(b: Bytes, gs: seq<Option<Group>>, active: seq<int>, k: nat)
    requires k <= |gs| == |active| && |b| >= 9 && WalkState(b, gs, active, k).Some?
    ensures var r := WalkState(b, gs, active, k).value;
            |r.0| == |b| && r.1 >= 9 && r.0[..9] == b[..9]
  {
    if k > 0 {
      WalkKeepsHeader(b, gs, active, k - 1);
      var before, i := WalkState(b, gs, active, k - 1).value, ActiveOf(gs[k - 1], active[k - 1]).value;
      EndpointWalkKeeps(before.0, before.1 + Skip(i), i.NumEndpoints());
    }
  }

  // ----- One interface -----

  /** All announced endpoints are there, each a record of 7 bytes with an interval. */
  predicate Walkable(i: Interface) {
    && i.desc[0] <= 9 && |i.endpoints| == i.desc[4] as int
    && forall k :: 0 <= k < |i.endpoints| ==>
         i.endpoints[k].Some? && i.endpoints[k].value[0] == 7 && i.endpoints[k].value[6] >= 1
  }

  function BoostedEndpoint(e: Desc7): Desc7
    requires e[6] >= 1
  {
    e[6 := NewInterval(e[6])]
  }

  /** The endpoints with new intervals; nothing else changes. */
  function BoostedEndpoints(es: seq<Option<Desc7>>): (r: seq<Option<Desc7>>)
    requires forall k :: 0 <= k < |es| ==> es[k].Some? && es[k].value[0] == 7 && es[k].value[6] >= 1
    ensures |r| == |es|
    ensures forall k :: 0 <= k < |r| ==> r[k] == Some(BoostedEndpoint(es[k].value))
  {
    seq(|es|, k requires 0 <= k < |es| => Some(BoostedEndpoint(es[k].value)))
  }

  function Boosted(i: Interface): Interface
    requires Walkable(i)
  {
    i.(endpoints := BoostedEndpoints(i.endpoints))
  }

  lemma NoEndpoints()
    ensures Flatten(EndpointPieces([])) == []
  {}

  lemma FirstEndpoint(es: seq<Option<Desc7>>)
    requires es != [] && forall j :: 0 <= j < |es| ==> es[j].Some? && es[j].value[0] == 7
    ensures Flatten(EndpointPieces(es)) == es[0].value + Flatten(EndpointPieces(es[1..]))
  {
    assert Cut(es[0].value) == es[0].value;
    assert EndpointPieces(es) == [es[0].value] + EndpointPieces(es[1..]);
  }

  /** Overwriting byte 6 of the record between `x` and `y`. */
  lemma PatchRecord(b: Bytes, x: Bytes, e: Desc7, y: Bytes, v: byte)
    requires b == x + e + y
    ensures |x| + 6 < |b| && b[|x|] == e[0] && b[|x| + 6] == e[6] && b[|x| + 6 := v] == x + e[6 := v] + y
  {}

  /** On printed endpoints the inner loop visits each record exactly once and changes its interval only. */
  lemma {:induction false} EndpointsWalked(es: seq<Option<Desc7>>, before: Bytes, after: Bytes)
    requires forall k :: 0 <= k < |es| ==> es[k].Some? && es[k].value[0] == 7 && es[k].value[6] >= 1
    ensures var r := before + Flatten(EndpointPieces(BoostedEndpoints(es)));
            WalkEndpointBytes(before + Flatten(EndpointPieces(es)) + after, |before|, |es|) == Some((r + after, |r|))
    decreases |es|
  {
    hide Flatten, EndpointPieces, NewInterval;
    var later := BoostedEndpoints(es);
    if es == [] {
      NoEndpoints();
      assert before + [] == before;
    } else {
      var e, rest := es[0].value, Flatten(EndpointPieces(es[1..]));
      FirstEndpoint(es);
      FirstEndpoint(later);
      assert later[1..] == BoostedEndpoints(es[1..]);
      var b := before + (e + rest) + after;
      assert b == before + e + (rest + after);
      PatchRecord(b, before, e, rest + after, NewInterval(e[6]));
      var x := before + BoostedEndpoint(e);
      assert b[|before| + 6 := NewInterval(e[6])] == x + rest + after;
      EndpointsWalked(es[1..], x, after);
      assert x + Flatten(EndpointPieces(later[1..]))
          == before + (BoostedEndpoint(e) + Flatten(EndpointPieces(later[1..])));
    }
  }

  lemma BoostedBytes(i: Interface)
    requires Walkable(i)
    ensures Printable(i) && Printable(Boosted(i))
    ensures var head := Cut(i.desc) + Flatten(HidPieces(i.hid)) + Flatten(i.generics);
            && |head| == Skip(i)
            && Flatten(Pieces(i)) == head + Flatten(EndpointPieces(i.endpoints))
            && Flatten(Pieces(Boosted(i))) == head + Flatten(EndpointPieces(BoostedEndpoints(i.endpoints)))
  {
    InterfaceBytesAre(i);
    InterfaceBytesAre(Boosted(i));
    HidBytes(i.hid);
    FlattenLength(i.generics);
  }

  /** One turn of the loop over interfaces, at the bytes the printer wrote for the interface. */
  lemma InterfaceWalked(i: Interface, before: Bytes, after: Bytes)
    requires Walkable(i)
    ensures Printable(i) && Printable(Boosted(i))
    ensures var r := before + Flatten(Pieces(Boosted(i)));
            WalkEndpointBytes(before + Flatten(Pieces(i)) + after, |before| + Skip(i), i.NumEndpoints())
            == Some((r + after, |r|))
  {
    hide Flatten, EndpointPieces, Pieces, HidPieces, WalkEndpointBytes;
    BoostedBytes(i);
    var head := Cut(i.desc) + Flatten(HidPieces(i.hid)) + Flatten(i.generics);
    var es, later := Flatten(EndpointPieces(i.endpoints)), Flatten(EndpointPieces(BoostedEndpoints(i.endpoints)));
    EndpointsWalked(i.endpoints, before + head, after);
    assert (before + head) + es + after == before + (head + es) + after;
    assert (before + head) + later == before + (head + later);
  }

  lemma SameInterfaceLength(i: Interface)
    requires Walkable(i)
    ensures Printable(i) && Printable(Boosted(i))
    ensures |Flatten(Pieces(Boosted(i)))| == |Flatten(Pieces(i))| == InterfaceLength(i)
  {
    BoostedBytes(i);
    InterfaceLengthIs(i);
    EndpointsLengthIs(i.endpoints);
    EndpointsLengthIs(BoostedEndpoints(i.endpoints));
    SameEndpointsLength(i.endpoints);
  }

  lemma {:induction false} SameEndpointsLength(es: seq<Option<Desc7>>)
    requires forall k :: 0 <= k < |es| ==> es[k].Some? && es[k].value[0] == 7 && es[k].value[6] >= 1
    ensures EndpointsLength(BoostedEndpoints(es)) == EndpointsLength(es)
  {
    if es != [] {
      assert BoostedEndpoints(es)[1..] == BoostedEndpoints(es[1..]);
      SameEndpointsLength(es[1..]);
    }
  }

  // ----- The loops -----

  method WalkEndpoints(buf: array<byte>, p: nat, m: nat) returns (q: Option<nat>)
    modifies buf
    ensures var r := WalkEndpointBytes(old(buf[..]), p, m);
            if r == None then q == None else q == Some(r.value.1) && buf[..] == r.value.0
  {
    hide NewInterval;
    var pointer: nat := p;
    for k := 0 to m
      invariant WalkEndpointBytes(old(buf[..]), p, m) == WalkEndpointBytes(buf[..], pointer, m - k)
    {
      if pointer + 6 >= buf.Length || buf[pointer + 6] == 0 {
        return None;
      }
      ghost var b := buf[..];
      buf[pointer + 6] := NewInterval(buf[pointer + 6]);
      assert buf[..] == b[pointer + 6 := NewInterval(b[pointer + 6])];
      pointer := pointer + buf[pointer];
    }
    q := Some(pointer);
  }

  /** One turn of the loop over interfaces: past the interface, HID and generic descriptors, then the endpoints. */
  method WalkInterface(i: Interface, buf: array<byte>, p: nat) returns (q: Option<nat>)
    modifies buf
    ensures var r := WalkEndpointBytes(old(buf[..]), p + Skip(i), i.NumEndpoints());
            if r == None then q == None else q == Some(r.value.1) && buf[..] == r.value.0
  {
    var pointer: nat := p + i.desc[0];
    if i.hid.Some? {
      pointer := pointer + i.hid.value[0];
    }
    for k := 0 to |i.generics|
      invariant pointer + TotalLength(i.generics[k..]) == p + Skip(i)
      invariant buf[..] == old(buf[..])
    {
      assert i.generics[k..][1..] == i.generics[k + 1..];
      pointer := pointer + i.generics[k][0];
    }
    q := WalkEndpoints(buf, pointer, i.NumEndpoints());
  }
}

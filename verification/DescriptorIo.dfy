/** Interface's parsing constructor and the printing methods, as loops over bytes. */
module DescriptorIo {
  import opened Common
  import opened Records
  import opened DescriptorTree
  import opened DescriptorRoundTrip

  // ----- Parsing one interface -----

  lemma TakeRecord(buf: Bytes, p: nat, r: Record, rest: seq<Record>)
    requires p <= |buf| && buf[p..] == Flatten([r] + rest)
    ensures p + |r| <= |buf| && buf[p] == |r| && buf[p + 1] == TypeOf(r)
    ensures buf[p..p + buf[p]] == r && buf[p + buf[p]..] == Flatten(rest)
  {
    assert ([r] + rest)[1..] == rest;
    assert buf[p..] == r + Flatten(rest);
    assert buf[p] == buf[p..][0] && buf[p + 1] == buf[p..][1];
    assert buf[p + |r|..] == buf[p..][|r|..];
  }

  /** A record list seen from position `k`. */
  lemma FromIndex(a: seq<Record>, k: nat, rest: seq<Record>)
    requires k < |a|
    ensures a[k..] + rest == [a[k]] + (a[k + 1..] + rest)
  {}

  lemma SelectSnoc(a: seq<Record>, k: nat, p: Record -> bool)
    requires k < |a|
    ensures Select(a[..k + 1], p) == Select(a[..k], p) + (if p(a[k]) then [a[k]] else [])
  {
    assert a[..k + 1] == a[..k] + [a[k]];
    SelectAppend(a[..k], [a[k]], p);
    assert [a[k]][1..] == [];
  }

  /** The first loop: records before the interface descriptor are kept as generic ones. */
  method ParseLead(buf: Bytes, p0: nat, ghost lead: seq<Record>, ghost rest: seq<Record>)
    returns (generics: seq<Record>, p: nat)
    requires p0 <= |buf| && buf[p0..] == Flatten(lead + rest)
    requires forall k :: 0 <= k < |lead| ==> !IsInterface(lead[k])
    requires rest != [] && IsInterface(rest[0])
    ensures generics == lead && p0 <= p <= |buf| && buf[p..] == Flatten(rest)
  {
    generics, p := [], p0;
    ghost var k := 0;
    assert lead[0..] + rest == lead + rest;
    LeadHead(buf, p, lead, k, rest);
    while buf[p + 1] != USB_DT_INTERFACE
      invariant k <= |lead| && p0 <= p <= |buf| && buf[p..] == Flatten(lead[k..] + rest)
      invariant p + 1 < |buf| && buf[p + 1] == TypeOf((lead[k..] + rest)[0])
      invariant generics == lead[..k]
      decreases |buf| - p
    {
      FromIndex(lead, k, rest);
      TakeRecord(buf, p, lead[k], lead[k + 1..] + rest);
      generics := generics + [buf[p..p + buf[p]]];
      p := p + buf[p];
      k := k + 1;
      LeadHead(buf, p, lead, k, rest);
    }
    assert lead[k..] + rest == rest;
  }

  lemma LeadHead(buf: Bytes, p: nat, lead: seq<Record>, k: nat, rest: seq<Record>)
    requires k <= |lead| && rest != [] && p <= |buf| && buf[p..] == Flatten(lead[k..] + rest)
    ensures p + 1 < |buf| && buf[p + 1] == TypeOf((lead[k..] + rest)[0])
  {
    var all := lead[k..] + rest;
    assert all == [all[0]] + all[1..];
    TakeRecord(buf, p, all[0], all[1..]);
  }

  /** What the loops have collected after `k` records, and after one more. */
  lemma OneMore(body: seq<Record>, k: nat)
    requires k < |body|
    ensures LastHid(body[..k + 1]) == if IsHid(body[k]) then Some(body[k]) else LastHid(body[..k])
    ensures Select(body[..k + 1], IsGeneric) == Select(body[..k], IsGeneric)
              + (if IsGeneric(body[k]) then [body[k]] else [])
    ensures Select(body[..k + 1], IsEndpoint) == Select(body[..k], IsEndpoint)
              + (if IsEndpoint(body[k]) then [body[k]] else [])
    ensures |Select(body[..k + 1], IsEndpoint)| <= |Select(body, IsEndpoint)|
  {
    SelectSnoc(body, k, IsGeneric);
    SelectSnoc(body, k, IsEndpoint);
    assert body[..k + 1][..k] == body[..k];
    assert body == body[..k + 1] + body[k + 1..];
    SelectAppend(body[..k + 1], body[k + 1..], IsEndpoint);
  }

  lemma TailHead(buf: Bytes, p: nat, body: seq<Record>, k: nat, rest: seq<Record>)
    requires k <= |body| && p <= |buf| && buf[p..] == Flatten(body[k..] + rest)
    ensures p < |buf| <==> body[k..] + rest != []
    ensures p < |buf| ==> p + 1 < |buf| && buf[p + 1] == TypeOf((body[k..] + rest)[0])
  {
    var all := body[k..] + rest;
    if all != [] {
      assert all == [all[0]] + all[1..];
      TakeRecord(buf, p, all[0], all[1..]);
    }
  }

  lemma NothingYet()
    ensures LastHid([]) == None && Select([], IsGeneric) == [] && Select([], IsEndpoint) == []
  {}

  /** The second loop: endpoints are counted in, the last HID record stays, the rest is generic. */
  method ParseBody(buf: Bytes, p0: nat, room: nat, ghost body: seq<Record>, ghost rest: seq<Record>)
    returns (hid: Option<Record>, generics: seq<Record>, endpoints: seq<Option<Desc7>>, p: nat)
    requires p0 <= |buf| && buf[p0..] == Flatten(body + rest)
    requires forall k :: 0 <= k < |body| ==> !IsInterface(body[k])
    requires forall k :: 0 <= k < |body| && IsEndpoint(body[k]) ==> |body[k]| == 7
    requires rest == [] || IsInterface(rest[0])
    requires |Select(body, IsEndpoint)| <= room
    ensures p0 <= p <= |buf| && buf[p..] == Flatten(rest)
    ensures hid == LastHid(body) && generics == Select(body, IsGeneric)
    ensures endpoints == Padded(Select(body, IsEndpoint), room)
  {
    hide Select, LastHid, Flatten;
    hid, generics, endpoints, p := None, [], Blank(room), p0;
    NothingYet();
    var ep: nat := 0;
    ghost var k := 0;
    assert body[0..] + rest == body + rest && body[..0] == [];
    TailHead(buf, p, body, k, rest);
    while p < |buf| && buf[p + 1] != USB_DT_INTERFACE
      invariant k <= |body| && p0 <= p <= |buf| && buf[p..] == Flatten(body[k..] + rest)
      invariant p < |buf| <==> body[k..] + rest != []
      invariant p < |buf| ==> p + 1 < |buf| && buf[p + 1] == TypeOf((body[k..] + rest)[0])
      invariant hid == LastHid(body[..k]) && generics == Select(body[..k], IsGeneric)
      invariant ep == |Select(body[..k], IsEndpoint)| && endpoints == Padded(Select(body[..k], IsEndpoint), room)
      decreases |buf| - p
    {
      FromIndex(body, k, rest);
      TakeRecord(buf, p, body[k], body[k + 1..] + rest);
      OneMore(body, k);
      var record := buf[p..p + buf[p]];
      if buf[p + 1] == USB_DT_ENDPOINT {
        endpoints := endpoints[ep := Some(buf[p..p + 7])];
        ep := ep + 1;
      } else if buf[p + 1] == HID_DT_HID {
        hid := Some(record);
      } else {
        generics := generics + [record];
      }
      p := p + buf[p];
      k := k + 1;
      TailHead(buf, p, body, k, rest);
    }
    assert k == |body| && body[..k] == body && body[k..] + rest == rest;
  }

  /** `Interface::Interface(configuration, p, e)`; `s` and `rest` are the records from `p0` on. */
  method ParseInterface(buf: Bytes, p0: nat, ghost s: Segment, ghost rest: seq<Record>)
    returns (i: Interface, p: nat)
    requires p0 <= |buf| && buf[p0..] == Flatten(s.All() + rest)
    requires Parsable(s) && IsInterface(s.head)
    requires forall k :: 0 <= k < |s.lead| ==> !IsInterface(s.lead[k])
    requires forall k :: 0 <= k < |s.body| ==> !IsInterface(s.body[k])
    requires rest == [] || IsInterface(rest[0])
    ensures i == MakeInterface(s) && |i.endpoints| == i.NumEndpoints()
    ensures p0 < p <= |buf| && buf[p..] == Flatten(rest)
  {
    assert s.All() + rest == s.lead + ([s.head] + (s.body + rest));
    var leading, q: nat := ParseLead(buf, p0, s.lead, [s.head] + (s.body + rest));
    TakeRecord(buf, q, s.head, s.body + rest);
    var desc := buf[q..q + buf[q]];
    q := q + buf[q];
    var hid, others, endpoints;
    EndpointsOf(s.body);
    hid, others, endpoints, p := ParseBody(buf, q, desc[4], s.body, rest);
    i := Interface(desc, hid, leading + others, endpoints);
  }

  // ----- Printing -----

  /** `after` is `before` with `bytes` written at `p`. */
  predicate Wrote(before: Bytes, after: Bytes, p: nat, bytes: Bytes) {
    p + |bytes| <= |before| && after == before[..p] + bytes + before[p + |bytes|..]
  }

  lemma WroteNothing(b: Bytes, p: nat)
    requires p <= |b|
    ensures Wrote(b, b, p, [])
  {}

  lemma WroteBoth(a: Bytes, b: Bytes, c: Bytes, p: nat, x: Bytes, y: Bytes)
    requires Wrote(a, b, p, x) && Wrote(b, c, p + |x|, y)
    ensures Wrote(a, c, p, x + y)
  {
    assert b[..p + |x|] == a[..p] + x;
    assert b[p + |x| + |y|..] == a[p + |x + y|..];
    assert c == a[..p] + x + y + a[p + |x + y|..];
  }

  /** `memcpy(*p, bytes, |bytes|); *p += |bytes|`. */
  method Put(buf: array<byte>, p: nat, bytes: Bytes) returns (q: nat)
    requires p + |bytes| <= buf.Length
    modifies buf
    ensures q == p + |bytes| && Wrote(old(buf[..]), buf[..], p, bytes)
  {
    forall k | 0 <= k < |bytes| {
      buf[p + k] := bytes[k];
    }
    q := p + |bytes|;
  }

  lemma {:induction false} EndpointPiecesSnoc(es: seq<Option<Desc7>>, k: nat)
    requires k < |es| && forall j :: 0 <= j < |es| && es[j].Some? ==> es[j].value[0] <= 7
    ensures EndpointPieces(es[..k + 1])
            == if es[k].Some? then EndpointPieces(es[..k]) + [Cut(es[k].value)] else EndpointPieces(es[..k])
  {
    if k == 0 {
      assert es[..1][1..] == [] && es[..0] == [];
    } else {
      EndpointPiecesSnoc(es[1..], k - 1);
      assert es[..k + 1][1..] == es[1..][..k] && es[..k][1..] == es[1..][..k - 1];
    }
  }

  lemma FlattenOne(b: Bytes)
    ensures Flatten([b]) == b
  {
    assert [b][1..] == [];
  }

  lemma FlattenSnoc(rs: seq<Bytes>, k: nat)
    requires k < |rs|
    ensures Flatten(rs[..k + 1]) == Flatten(rs[..k]) + rs[k]
    ensures |Flatten(rs[..k + 1])| <= |Flatten(rs)|
  {
    assert rs[..k + 1] == rs[..k] + [rs[k]];
    FlattenAppend(rs[..k], [rs[k]]);
    FlattenOne(rs[k]);
    assert rs == rs[..k + 1] + rs[k + 1..];
    FlattenAppend(rs[..k + 1], rs[k + 1..]);
  }

  /** The bytes of one interface. */
  function InterfaceBytes(i: Interface): Bytes
    requires Printable(i)
  {
    Cut(i.desc) + Flatten(HidPieces(i.hid)) + Flatten(i.generics) + Flatten(EndpointPieces(i.endpoints))
  }

  lemma InterfaceBytesAre(i: Interface)
    requires Printable(i)
    ensures InterfaceBytes(i) == Flatten(Pieces(i))
  {
    FlattenAppend([Cut(i.desc)] + HidPieces(i.hid) + i.generics, EndpointPieces(i.endpoints));
    FlattenAppend([Cut(i.desc)] + HidPieces(i.hid), i.generics);
    FlattenAppend([Cut(i.desc)], HidPieces(i.hid));
    FlattenOne(Cut(i.desc));
  }

  /** `Interface::get_full_descriptor`. */
  method PrintInterface(i: Interface, buf: array<byte>, p: nat) returns (q: nat)
    requires Printable(i) && p + |Flatten(Pieces(i))| <= buf.Length
    modifies buf
    ensures q == p + |Flatten(Pieces(i))| && Wrote(old(buf[..]), buf[..], p, Flatten(Pieces(i)))
  {
    hide Wrote, Flatten, EndpointPieces, Pieces, HidPieces, Cut;
    InterfaceBytesAre(i);
    ghost var d, g, e := Cut(i.desc) + Flatten(HidPieces(i.hid)), Flatten(i.generics),
      Flatten(EndpointPieces(i.endpoints));
    ghost var b0 := buf[..];
    q := PrintHead(i.desc, i.hid, buf, p);
    ghost var b1 := buf[..];
    q := PrintGenerics(i.generics, buf, q);
    ghost var b2 := buf[..];
    WroteBoth(b0, b1, b2, p, d, g);
    q := PrintEndpoints(i.endpoints, buf, q);
    WroteBoth(b0, b2, buf[..], p, d + g, e);
  }

  /** The interface descriptor and, if there is one, the HID descriptor. */
  method PrintHead(desc: Desc9, hid: Option<Record>, buf: array<byte>, p: nat) returns (q: nat)
    requires desc[0] <= 9 && p + |Cut(desc) + Flatten(HidPieces(hid))| <= buf.Length
    modifies buf
    ensures q == p + |Cut(desc) + Flatten(HidPieces(hid))|
    ensures Wrote(old(buf[..]), buf[..], p, Cut(desc) + Flatten(HidPieces(hid)))
  {
    hide Wrote, Flatten, HidPieces;
    HidBytes(hid);
    q := Put(buf, p, Cut(desc));
    ghost var b := buf[..];
    if hid.Some? {
      q := Put(buf, q, hid.value);
    } else {
      WroteNothing(b, q);
    }
    WroteBoth(old(buf[..]), b, buf[..], p, Cut(desc), Flatten(HidPieces(hid)));
  }

  lemma HidBytes(hid: Option<Record>)
    ensures Flatten(HidPieces(hid)) == if hid.Some? then hid.value else []
  {
    if hid.Some? {
      FlattenOne(hid.value);
    }
  }

  method PrintGenerics(generics: seq<Record>, buf: array<byte>, p: nat) returns (q: nat)
    requires p + |Flatten(generics)| <= buf.Length
    modifies buf
    ensures q == p + |Flatten(generics)| && Wrote(old(buf[..]), buf[..], p, Flatten(generics))
  {
    hide Wrote, Flatten;
    q := p;
    FlattenNone();
    WroteNothing(buf[..], p);
    assert generics[..0] == [];
    for k := 0 to |generics|
      invariant q == p + |Flatten(generics[..k])| && Wrote(old(buf[..]), buf[..], p, Flatten(generics[..k]))
    {
      ghost var b := buf[..];
      FlattenSnoc(generics, k);
      q := Put(buf, q, generics[k]);
      WroteBoth(old(buf[..]), b, buf[..], p, Flatten(generics[..k]), generics[k]);
    }
    assert generics[..|generics|] == generics;
  }

  lemma FlattenNone()
    ensures Flatten([]) == []
  {}

  method PrintEndpoints(endpoints: seq<Option<Desc7>>, buf: array<byte>, p: nat) returns (q: nat)
    requires forall k :: 0 <= k < |endpoints| && endpoints[k].Some? ==> endpoints[k].value[0] <= 7
    requires p + |Flatten(EndpointPieces(endpoints))| <= buf.Length
    modifies buf
    ensures q == p + |Flatten(EndpointPieces(endpoints))|
    ensures Wrote(old(buf[..]), buf[..], p, Flatten(EndpointPieces(endpoints)))
  {
    hide Wrote, Flatten;
    q := p;
    FlattenNone();
    WroteNothing(buf[..], p);
    assert endpoints[..0] == [];
    for k := 0 to |endpoints|
      invariant q == p + |Flatten(EndpointPieces(endpoints[..k]))|
      invariant Wrote(old(buf[..]), buf[..], p, Flatten(EndpointPieces(endpoints[..k])))
    {
      ghost var b := buf[..];
      EndpointPiecesStep(endpoints, k);
      if endpoints[k].Some? {
        q := Put(buf, q, Cut(endpoints[k].value));
        WroteBoth(old(buf[..]), b, buf[..], p, Flatten(EndpointPieces(endpoints[..k])), Cut(endpoints[k].value));
      }
    }
    assert endpoints[..|endpoints|] == endpoints;
  }

  lemma EndpointPiecesStep(es: seq<Option<Desc7>>, k: nat)
    requires k < |es| && forall j :: 0 <= j < |es| && es[j].Some? ==> es[j].value[0] <= 7
    ensures Flatten(EndpointPieces(es[..k + 1]))
            == if es[k].Some? then Flatten(EndpointPieces(es[..k])) + Cut(es[k].value)
               else Flatten(EndpointPieces(es[..k]))
    ensures |Flatten(EndpointPieces(es[..k + 1]))| <= |Flatten(EndpointPieces(es))|
  {
    EndpointPiecesSnoc(es, k);
    EndpointPiecesAppend(es[..k + 1], es[k + 1..]);
    assert es == es[..k + 1] + es[k + 1..];
    FlattenAppend(EndpointPieces(es[..k + 1]), EndpointPieces(es[k + 1..]));
    if es[k].Some? {
      FlattenAppend(EndpointPieces(es[..k]), [Cut(es[k].value)]);
      FlattenOne(Cut(es[k].value));
    }
  }

  lemma {:induction false} EndpointPiecesAppend(a: seq<Option<Desc7>>, b: seq<Option<Desc7>>)
    requires forall j :: 0 <= j < |a| && a[j].Some? ==> a[j].value[0] <= 7
    requires forall j :: 0 <= j < |b| && b[j].Some? ==> b[j].value[0] <= 7
    ensures forall j :: 0 <= j < |a + b| && (a + b)[j].Some? ==> (a + b)[j].value[0] <= 7
    ensures EndpointPieces(a + b) == EndpointPieces(a) + EndpointPieces(b)
  {
    hide EndpointPieces;
    if a == [] {
      assert a + b == b;
      NoEndpointPieces();
    } else {
      TailOfSum(a, b);
      EndpointPiecesAppend(a[1..], b);
      FirstEndpointPiece(a);
      FirstEndpointPiece(a + b);
    }
  }

  lemma NoEndpointPieces()
    ensures EndpointPieces([]) == []
  {}

  lemma FirstEndpointPiece(es: seq<Option<Desc7>>)
    requires es != [] && forall j :: 0 <= j < |es| && es[j].Some? ==> es[j].value[0] <= 7
    ensures EndpointPieces(es) == (if es[0].Some? then [Cut(es[0].value)] else []) + EndpointPieces(es[1..])
  {
  }
}

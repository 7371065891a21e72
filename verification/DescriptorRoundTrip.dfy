/** Parsing what was printed gives the tree back. */
module DescriptorRoundTrip {
  import opened Common
  import opened Records
  import opened DescriptorTree
  import opened DescriptorBuild

  /** What the parser can produce: typed records, the endpoints that exist before those that do not. */
  predicate WellFormedInterface(i: Interface) {
    && i.desc[0] == 9 && i.desc[1] == 4
    && (i.hid.Some? ==> i.hid.value[1] == 0x21)
    && (forall k :: 0 <= k < |i.generics| ==>
          i.generics[k][1] != 4 && i.generics[k][1] != 5 && i.generics[k][1] != 0x21)
    && |i.generics| <= 255
    && (forall k :: 0 <= k < |i.endpoints| && i.endpoints[k].Some? ==>
          i.endpoints[k].value[0] == 7 && i.endpoints[k].value[1] == 5)
    && |i.endpoints| == i.desc[4] as int
    && forall j, k :: 0 <= j < k < |i.endpoints| && i.endpoints[k].Some? ==> i.endpoints[j].Some?
  }

  /** The endpoints that exist, and NULL for the others. */
  lemma {:induction false} FrontLoaded<T>(xs: seq<Option<T>>)
    requires forall j, k :: 0 <= j < k < |xs| && xs[k].Some? ==> xs[j].Some?
    ensures |Present(xs)| <= |xs| && xs == Padded(Present(xs), |xs|)
  {
    if xs != [] {
      FrontLoaded(xs[1..]);
      if xs[0] == None {
        assert Present(xs) == Present(xs[1..]);
        NoneIsPresent(xs);
      }
    }
  }

  lemma {:induction false} NoneIsPresent<T>(xs: seq<Option<T>>)
    requires forall k :: 0 <= k < |xs| ==> xs[k] == None
    ensures Present(xs) == []
  {
    if xs != [] {
      NoneIsPresent(xs[1..]);
    }
  }

  /** Well-formed configuration trees; alternates (and interfaces) may be missing in between. */
  predicate WellFormedTree(t: Tree) {
    && t.desc[0] == 9 && |t.groups| == t.desc[4] as int
    && Canonical(t.groups) && Keyed(t.groups, 0)
    && (forall k :: 0 <= k < |InGroups(t.groups)| ==> WellFormedInterface(InGroups(t.groups)[k]))
    && (forall n :: 0 <= n < |t.groups| && t.groups[n].Some? ==> |t.groups[n].value.alternates| <= 255)
  }

  // ----- The records of one interface -----

  function EndpointRecords(es: seq<Option<Desc7>>): seq<Record>
    requires forall k :: 0 <= k < |es| && es[k].Some? ==> es[k].value[0] == 7
  {
    if es == [] then []
    else
      var rest := EndpointRecords(es[1..]);
      if es[0].Some? then
        var r: Record := es[0].value;
        [r] + rest
      else rest
  }

  function HidRecords(hid: Option<Record>): seq<Record> {
    if hid.Some? then [hid.value] else []
  }

  /** The segment an interface is printed as. */
  function SegmentOf(i: Interface): Segment
    requires WellFormedInterface(i)
  {
    Segment([], i.desc, HidRecords(i.hid) + i.generics + EndpointRecords(i.endpoints))
  }

  lemma {:induction false} EndpointRecordsAre(es: seq<Option<Desc7>>)
    requires forall k :: 0 <= k < |es| && es[k].Some? ==> es[k].value[0] == 7 && es[k].value[1] == USB_DT_ENDPOINT
    ensures EndpointRecords(es) == EndpointPieces(es) == Present(es)
    ensures forall k :: 0 <= k < |EndpointRecords(es)| ==> IsEndpoint(EndpointRecords(es)[k])
  {
    if es != [] {
      EndpointRecordsAre(es[1..]);
      if es[0].Some? {
        assert Cut(es[0].value) == es[0].value;
      }
    }
  }

  lemma {:induction false} SelectAppend(a: seq<Record>, b: seq<Record>, p: Record -> bool)
    ensures Select(a + b, p) == Select(a, p) + Select(b, p)
  {
    if a == [] {
      assert a + b == b;
    } else {
      assert (a + b)[1..] == a[1..] + b;
      SelectAppend(a[1..], b, p);
    }
  }

  lemma {:induction false} SelectAll(a: seq<Record>, p: Record -> bool)
    requires forall k :: 0 <= k < |a| ==> p(a[k])
    ensures Select(a, p) == a
  {
    if a != [] {
      SelectAll(a[1..], p);
    }
  }

  lemma {:induction false} SelectNone(a: seq<Record>, p: Record -> bool)
    requires forall k :: 0 <= k < |a| ==> !p(a[k])
    ensures Select(a, p) == []
  {
    if a != [] {
      SelectNone(a[1..], p);
    }
  }

  lemma {:induction false} LastHidAppend(a: seq<Record>, b: seq<Record>)
    requires forall k :: 0 <= k < |b| ==> !IsHid(b[k])
    ensures LastHid(a + b) == LastHid(a)
  {
    if b == [] {
      assert a + b == a;
    } else {
      assert (a + b)[..|a + b| - 1] == a + b[..|b| - 1];
      LastHidAppend(a, b[..|b| - 1]);
    }
  }

  lemma {:induction false} EndpointsOf(rs: seq<Record>)
    requires forall k :: 0 <= k < |rs| && IsEndpoint(rs[k]) ==> |rs[k]| == 7
    ensures Endpoints(rs) == Select(rs, IsEndpoint)
  {
    if rs != [] {
      EndpointsOf(rs[1..]);
    }
  }

  lemma BodyHid(h: seq<Record>, g: seq<Record>, e: seq<Record>)
    requires (forall k :: 0 <= k < |h| ==> IsHid(h[k])) && |h| <= 1
    requires forall k :: 0 <= k < |g| ==> !IsHid(g[k])
    requires forall k :: 0 <= k < |e| ==> !IsHid(e[k])
    ensures LastHid(h + g + e) == if h == [] then None else Some(h[0])
  {
    hide LastHid;
    assert h + g + e == h + (g + e);
    LastHidAppend(h, g + e);
    LastHidOfOne(h);
  }

  lemma LastHidOfOne(h: seq<Record>)
    requires (forall k :: 0 <= k < |h| ==> IsHid(h[k])) && |h| <= 1
    ensures LastHid(h) == if h == [] then None else Some(h[0])
  {}

  lemma BodyGenerics(h: seq<Record>, g: seq<Record>, e: seq<Record>)
    requires forall k :: 0 <= k < |h| ==> !IsGeneric(h[k])
    requires forall k :: 0 <= k < |g| ==> IsGeneric(g[k])
    requires forall k :: 0 <= k < |e| ==> !IsGeneric(e[k])
    ensures Select(h + g + e, IsGeneric) == g
  {
    SelectAppend(h + g, e, IsGeneric);
    SelectAppend(h, g, IsGeneric);
    SelectNone(h, IsGeneric);
    SelectAll(g, IsGeneric);
    SelectNone(e, IsGeneric);
  }

  lemma BodyEndpoints(a: seq<Record>, e: seq<Record>)
    requires forall k :: 0 <= k < |a| ==> !IsEndpoint(a[k])
    requires forall k :: 0 <= k < |e| ==> IsEndpoint(e[k])
    ensures Select(a + e, IsEndpoint) == e
  {
    SelectAppend(a, e, IsEndpoint);
    SelectNone(a, IsEndpoint);
    SelectAll(e, IsEndpoint);
  }

  lemma SegmentParts(i: Interface)
    requires WellFormedInterface(i)
    ensures var body := SegmentOf(i).body;
            && LastHid(body) == i.hid && Select(body, IsGeneric) == i.generics
            && Select(body, IsEndpoint) == Present(i.endpoints)
            && (forall k :: 0 <= k < |body| ==> !IsInterface(body[k]))
            && (forall k :: 0 <= k < |body| && IsEndpoint(body[k]) ==> |body[k]| == 7)
  {
    hide LastHid, Select, Present, EndpointRecords, EndpointPieces;
    EndpointRecordsAre(i.endpoints);
    var h, g, e := HidRecords(i.hid), i.generics, EndpointRecords(i.endpoints);
    BodyHid(h, g, e);
    BodyGenerics(h, g, e);
    BodyEndpoints(h + g, e);
  }

  /** The parser undoes the printer on one interface. */
  lemma InterfaceRoundTrip(i: Interface)
    requires WellFormedInterface(i)
    ensures Printable(i) && SegmentOf(i).All() == Pieces(i)
    ensures Parsable(SegmentOf(i)) && MakeInterface(SegmentOf(i)) == i
  {
    hide LastHid, Select, Present, Endpoints, EndpointRecords, EndpointPieces;
    SegmentParts(i);
    EndpointRecordsAre(i.endpoints);
    EndpointsOf(SegmentOf(i).body);
    FrontLoaded(i.endpoints);
    assert Cut(i.desc) == i.desc;
  }

  // ----- Lists of interfaces -----

  function SegmentsOf(its: seq<Interface>): seq<Segment>
    requires forall k :: 0 <= k < |its| ==> WellFormedInterface(its[k])
  {
    if its == [] then [] else [SegmentOf(its[0])] + SegmentsOf(its[1..])
  }

  function RecordsIn(ss: seq<Segment>): seq<Record> {
    if ss == [] then [] else ss[0].All() + RecordsIn(ss[1..])
  }

  lemma {:induction false} UpToInterfaceAppend(a: seq<Record>, b: seq<Record>)
    requires forall k :: 0 <= k < |a| ==> !IsInterface(a[k])
    requires b == [] || IsInterface(b[0])
    ensures UpToInterface(a + b) == |a|
  {
    if a == [] {
      assert a + b == b;
    } else {
      assert (a + b)[1..] == a[1..] + b;
      UpToInterfaceAppend(a[1..], b);
    }
  }

  lemma FirstOfSegments(rs: seq<Record>)
    requires UpToInterface(rs) < |rs|
    ensures var k := UpToInterface(rs);
            var n := UpToInterface(rs[k + 1..]);
            Segments(rs) == [Segment(rs[..k], rs[k], rs[k + 1..][..n])] + Segments(rs[k + 1..][n..])
  {
    hide UpToInterface;
  }

  lemma InterfaceComesFirst(rs: seq<Record>)
    requires rs != [] && IsInterface(rs[0])
    ensures UpToInterface(rs) == 0
  {}

  lemma FirstSegment(s: Segment, rest: seq<Record>)
    requires s.lead == [] && IsInterface(s.head) && forall k :: 0 <= k < |s.body| ==> !IsInterface(s.body[k])
    requires rest == [] || IsInterface(rest[0])
    ensures HasInterface(s.All() + rest) && (s.All() + rest)[0] == s.head
    ensures Segments(s.All() + rest) == [s] + Segments(rest)
  {
    hide UpToInterface, Segments;
    var rs := s.All() + rest;
    assert rs == [s.head] + (s.body + rest);
    InterfaceComesFirst(rs);
    UpToInterfaceAppend(s.body, rest);
    assert rs[1..] == s.body + rest;
    FirstOfSegments(rs);
    assert rs[1..][..|s.body|] == s.body && rs[1..][|s.body|..] == rest;
    assert rs[..0] == [];
  }

  lemma {:induction false} PrintedSegments(its: seq<Interface>)
    requires forall k :: 0 <= k < |its| ==> WellFormedInterface(its[k])
    ensures forall k :: 0 <= k < |its| ==> Printable(its[k])
    ensures PiecesOf(its) == RecordsIn(SegmentsOf(its))
    ensures HasInterface(RecordsIn(SegmentsOf(its))) && Segments(RecordsIn(SegmentsOf(its))) == SegmentsOf(its)
    ensures its != [] ==> |RecordsIn(SegmentsOf(its))| > 0 && RecordsIn(SegmentsOf(its))[0] == its[0].desc
  {
    hide WellFormedInterface, Printable, Pieces, Segments, HasInterface;
    if its == [] {
      NoSegments();
    } else {
      var s := SegmentOf(its[0]);
      HeadIsInterface(its[0]);
      InterfaceRoundTrip(its[0]);
      SegmentParts(its[0]);
      PrintedSegments(its[1..]);
      if |its| > 1 {
        HeadIsInterface(its[1]);
      }
      FirstSegment(s, RecordsIn(SegmentsOf(its[1..])));
    }
  }

  lemma NoSegments()
    ensures HasInterface([]) && Segments([]) == []
  {}

  lemma HeadIsInterface(i: Interface)
    requires WellFormedInterface(i)
    ensures SegmentOf(i).lead == [] && SegmentOf(i).head == i.desc && IsInterface(SegmentOf(i).head)
  {}

  lemma {:induction false} RemadeInterfaces(its: seq<Interface>)
    requires forall k :: 0 <= k < |its| ==> WellFormedInterface(its[k])
    ensures |SegmentsOf(its)| == |its|
    ensures forall k :: 0 <= k < |its| ==> SegmentsOf(its)[k] == SegmentOf(its[k]) && Parsable(SegmentsOf(its)[k])
    ensures MakeInterfaces(SegmentsOf(its)) == its
  {
    hide WellFormedInterface, Parsable, MakeInterface, Pieces, Printable, SegmentOf;
    if its != [] {
      InterfaceRoundTrip(its[0]);
      RemadeInterfaces(its[1..]);
    }
  }

  lemma PlacedByKey(t: Tree)
    requires WellFormedTree(t)
    ensures forall k :: 0 <= k < |InGroups(t.groups)| ==> Placed(InGroups(t.groups)[k], t.desc[4])
  {
    var its := InGroups(t.groups);
    KeyedNumbers(t.groups, 0);
    forall k | 0 <= k < |its|
      ensures its[k].Alternate() <= 254
    {
      var i := its[k];
      FindOfMember(its, i);
      FindInGroups(t.groups, 0, i.Number(), i.Alternate());
    }
  }

  lemma {:induction false} FindOfMember(its: seq<Interface>, i: Interface)
    requires i in its
    ensures Find(its, i.Number(), i.Alternate()).Some?
  {
    if its[|its| - 1] != i {
      FindOfMember(its[..|its| - 1], i);
    }
  }

  lemma ParsedSegments(t: Tree)
    requires WellFormedTree(t)
    ensures var ss := SegmentsOf(InGroups(t.groups));
            ParsableBlock(t.desc, RecordsIn(ss)) && ParseRecords(t.desc, RecordsIn(ss)) == t
  {
    hide Segments, Parsable, MakeInterface, Placed, HasInterface, Canonical, Keyed, InGroups, AddAll;
    var its := InGroups(t.groups);
    PrintedSegments(its);
    RemadeInterfaces(its);
    PlacedByKey(t);
    RebuildGroups(t.groups);
    forall k | 0 <= k < |its|
      ensures Parsable(SegmentOf(its[k])) && MakeInterface(SegmentOf(its[k])) == its[k]
    {
      InterfaceRoundTrip(its[k]);
    }
  }

  /**
   The parse loop undoes the printer, for every well-formed tree, with any alternates or interfaces
   missing. What the rest of the constructor makes of a missing interface is another matter
   (DescriptorConstruction).
   */
  lemma LoopAfterPrint(t: Tree)
    requires WellFormedTree(t)
    ensures PrintableTree(t) && ParsableBytes(Print(t)) && Parse(Print(t)) == t
  {
    hide WellFormedInterface, Printable, ParsableBlock, ParseRecords, Canonical, Keyed, Split, Flatten, PiecesOf;
    var rs := RecordsIn(SegmentsOf(InGroups(t.groups)));
    PrintedSegments(InGroups(t.groups));
    ParsedSegments(t);
    SplitFlatten(rs);
    assert Cut(t.desc) == t.desc;
    assert Print(t)[..9] == t.desc && Print(t)[9..] == Flatten(rs);
  }
}

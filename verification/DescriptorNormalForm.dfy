/** Printing what was parsed rearranges the input into a normal form. */
module DescriptorNormalForm {
  import opened Common
  import opened Records
  import opened DescriptorTree
  import opened DescriptorBuild
  import opened DescriptorRoundTrip

  function Bag(rs: seq<Bytes>): multiset<Bytes> { multiset(rs) }

  /** Only generic records before the first interface, and at most one HID record. */
  predicate Tidy(s: Segment) {
    && Parsable(s) && IsInterface(s.head)
    && (forall k :: 0 <= k < |s.lead| ==> IsGeneric(s.lead[k]))
    && (forall k :: 0 <= k < |s.body| ==> !IsInterface(s.body[k]))
    && |Select(s.body, IsHid)| <= 1
  }

  predicate WellFormedBlock(desc: Desc9, rs: seq<Record>) {
    && desc[0] == 9 && ParsableBlock(desc, rs)
    && (forall k :: 0 <= k < |Segments(rs)| ==> Tidy(Segments(rs)[k]))
    && DistinctKeys(MakeInterfaces(Segments(rs)))
  }

  // ----- One segment -----

  lemma {:induction false} PresentPadded<T>(xs: seq<T>, n: nat)
    requires |xs| <= n
    ensures Present(Padded(xs, n)) == xs
    decreases n
  {
    var p := Padded(xs, n);
    if n > 0 {
      if xs == [] {
        assert p[1..] == Padded(xs, n - 1);
        PresentPadded(xs, n - 1);
      } else {
        assert p[1..] == Padded(xs[1..], n - 1);
        PresentPadded(xs[1..], n - 1);
      }
    }
  }

  lemma {:induction false} PickedSatisfies(rs: seq<Record>, p: Record -> bool)
    ensures forall k :: 0 <= k < |Select(rs, p)| ==> p(Select(rs, p)[k])
  {
    if rs != [] {
      PickedSatisfies(rs[1..], p);
    }
  }

  lemma {:induction false} ByType(rs: seq<Record>)
    requires forall k :: 0 <= k < |rs| ==> !IsInterface(rs[k])
    ensures Bag(rs) == Bag(Select(rs, IsHid)) + Bag(Select(rs, IsGeneric)) + Bag(Select(rs, IsEndpoint))
  {
    hide Select, Bag;
    if rs == [] {
      NothingSelected();
    } else {
      ByType(rs[1..]);
      BagFirst(rs);
      SelectBag(rs, IsHid);
      SelectBag(rs, IsGeneric);
      SelectBag(rs, IsEndpoint);
    }
  }

  lemma NothingSelected()
    ensures Bag([]) == multiset{} && forall p: Record -> bool :: Select([], p) == []
  {}

  lemma BagFirst(rs: seq<Record>)
    requires rs != []
    ensures Bag(rs) == Bag([rs[0]]) + Bag(rs[1..])
  {
    assert rs == [rs[0]] + rs[1..];
  }

  lemma SelectBag(rs: seq<Record>, p: Record -> bool)
    requires rs != []
    ensures Bag(Select(rs, p)) == if p(rs[0]) then Bag([rs[0]]) + Bag(Select(rs[1..], p)) else Bag(Select(rs[1..], p))
  {
    if !p(rs[0]) {
      assert Select(rs, p) == Select(rs[1..], p);
    }
  }

  lemma {:induction false} LastHidIsSelected(rs: seq<Record>)
    requires |Select(rs, IsHid)| <= 1
    ensures HidRecords(LastHid(rs)) == Select(rs, IsHid)
  {
    if rs != [] {
      var init, last := rs[..|rs| - 1], rs[|rs| - 1];
      assert rs == init + [last];
      SelectAppend(init, [last], IsHid);
      assert [last][1..] == [];
      if !IsHid(last) {
        LastHidIsSelected(init);
      }
    }
  }

  /** Of several HID descriptors the last one stays, in any segment. */
  lemma {:induction false} LastHidStays(rs: seq<Record>)
    ensures LastHid(rs) == None ==> forall k :: 0 <= k < |rs| ==> rs[k][1] != 0x21
    ensures LastHid(rs).Some? ==>
              exists k :: 0 <= k < |rs| && rs[k] == LastHid(rs).value && rs[k][1] == 0x21
                && forall j :: k < j < |rs| ==> rs[j][1] != 0x21
  {
    if rs != [] && !IsHid(rs[|rs| - 1]) {
      var init := rs[..|rs| - 1];
      LastHidStays(init);
      if LastHid(init).Some? {
        var k :| 0 <= k < |init| && init[k] == LastHid(init).value && init[k][1] == 0x21
          && forall j :: k < j < |init| ==> init[j][1] != 0x21;
        assert rs[k] == init[k] && forall j :: k < j < |init| ==> rs[j] == init[j];
      }
    }
  }

  lemma TidyInterface(s: Segment)
    requires Tidy(s)
    ensures WellFormedInterface(MakeInterface(s))
  {
    hide Select, LastHid, Endpoints, Present;
    var eps := Endpoints(s.body);
    EndpointsOf(s.body);
    PresentPadded(eps, s.head[4]);
    PickedSatisfies(s.body, IsGeneric);
    PickedSatisfies(s.body, IsEndpoint);
    PickedSatisfies(s.body, IsHid);
    LastHidIsSelected(s.body);
    var i := MakeInterface(s);
    assert i.hid.Some? ==> IsHid(HidRecords(i.hid)[0]);
    EndpointsAreRecords(s.body);
    assert i.desc[1] == TypeOf(s.head);
  }

  lemma {:induction false} EndpointsAreRecords(rs: seq<Record>)
    requires forall k :: 0 <= k < |rs| && IsEndpoint(rs[k]) ==> |rs[k]| == 7
    ensures forall k :: 0 <= k < |Endpoints(rs)| ==> Endpoints(rs)[k][0] == 7 && Endpoints(rs)[k][1] == 5
  {
    if rs != [] {
      EndpointsAreRecords(rs[1..]);
    }
  }

  /** The generic and the endpoint descriptors keep their order. */
  lemma OrderIsKept(s: Segment)
    requires Tidy(s)
    ensures MakeInterface(s).generics == Select(s.All(), IsGeneric)
    ensures Present(MakeInterface(s).endpoints) == Select(s.All(), IsEndpoint)
  {
    hide Select, LastHid, Endpoints, Present;
    EndpointsOf(s.body);
    PresentPadded(Endpoints(s.body), s.head[4]);
    SelectParts(s, IsEndpoint);
    SelectParts(s, IsGeneric);
    SelectNone(s.lead, IsEndpoint);
    SelectAll(s.lead, IsGeneric);
  }

  lemma SelectParts(s: Segment, p: Record -> bool)
    requires !p(s.head)
    ensures Select(s.All(), p) == Select(s.lead, p) + Select(s.body, p)
  {
    SelectAppend(s.lead + [s.head], s.body, p);
    SelectAppend(s.lead, [s.head], p);
    assert [s.head][1..] == [];
  }

  /** An interface is printed as the records it was made from. */
  lemma SegmentIsRearranged(s: Segment)
    requires Tidy(s)
    ensures Printable(MakeInterface(s)) && Bag(Pieces(MakeInterface(s))) == Bag(s.All())
  {
    hide Select, LastHid, Present, EndpointRecords, EndpointPieces, Endpoints;
    var i := MakeInterface(s);
    TidyInterface(s);
    InterfaceRoundTrip(i);
    EndpointRecordsAre(i.endpoints);
    LastHidIsSelected(s.body);
    ByType(s.body);
    EndpointsOf(s.body);
    PresentPadded(Endpoints(s.body), s.head[4]);
    var h, g, e := HidRecords(i.hid), Select(s.body, IsGeneric), EndpointRecords(i.endpoints);
    assert Pieces(i) == [s.head] + h + (s.lead + g) + e;
  }

  // ----- Segments cover the block -----

  /** The first segment of a block, and the rest of the block. */
  lemma SplitSegment(rs: seq<Record>) returns (s: Segment, rest: seq<Record>)
    requires HasInterface(rs) && rs != []
    ensures rs == s.All() + rest && |rest| < |rs|
    ensures HasInterface(rest) && (rest == [] || IsInterface(rest[0]))
    ensures Segments(rs) == [s] + Segments(rest)
    ensures IsInterface(s.head)
    ensures forall k :: 0 <= k < |s.lead| ==> !IsInterface(s.lead[k])
    ensures forall k :: 0 <= k < |s.body| ==> !IsInterface(s.body[k])
  {
    hide Segments, UpToInterface, HasInterface;
    FoundInterface(rs);
    var k := UpToInterface(rs);
    var after := rs[k + 1..];
    var n := UpToInterface(after);
    s, rest := Segment(rs[..k], rs[k], after[..n]), after[n..];
    FirstOfSegments(rs);
    Regroup(rs, k, n);
    assert rest != [] ==> rest[0] == after[n];
    StartsWithInterface(rest);
  }

  lemma FoundInterface(rs: seq<Record>)
    requires HasInterface(rs) && rs != []
    ensures UpToInterface(rs) < |rs|
  {}

  lemma Regroup<T>(s: seq<T>, k: nat, n: nat)
    requires k < |s| && n <= |s[k + 1..]|
    ensures s == s[..k] + [s[k]] + s[k + 1..][..n] + s[k + 1..][n..]
  {
    assert s[k + 1..] == s[k + 1..][..n] + s[k + 1..][n..];
  }

  lemma StartsWithInterface(rs: seq<Record>)
    requires rs == [] || IsInterface(rs[0])
    ensures HasInterface(rs)
  {}

  lemma {:induction false} SegmentsCover(rs: seq<Record>)
    requires HasInterface(rs)
    ensures RecordsIn(Segments(rs)) == rs
    decreases |rs|
  {
    hide UpToInterface, Segments, HasInterface;
    if rs == [] {
      NoSegments();
    } else {
      var s, rest := SplitSegment(rs);
      SegmentsCover(rest);
    }
  }

  /** One interface per type-4 record. */
  lemma {:induction false} SegmentCount(rs: seq<Record>)
    requires HasInterface(rs)
    ensures |Segments(rs)| == |Select(rs, IsInterface)|
    decreases |rs|
  {
    hide UpToInterface, Segments, HasInterface, Select;
    if rs == [] {
      NoSegments();
      SelectNone(rs, IsInterface);
    } else {
      var s, rest := SplitSegment(rs);
      SegmentCount(rest);
      SelectAppend(s.All(), rest, IsInterface);
      SelectAppend(s.lead + [s.head], s.body, IsInterface);
      SelectAppend(s.lead, [s.head], IsInterface);
      SelectNone(s.lead, IsInterface);
      SelectAll([s.head], IsInterface);
      SelectNone(s.body, IsInterface);
    }
  }

  // ----- The tree holds every interface once -----

  lemma {:induction false} PresentUpdate(xs: seq<Option<Interface>>, a: nat, i: Interface)
    requires a < |xs| && xs[a] == None
    ensures multiset(Present(xs[a := Some(i)])) == multiset(Present(xs)) + multiset{i}
  {
    var ys := xs[a := Some(i)];
    if a == 0 {
      assert ys[1..] == xs[1..];
    } else {
      assert ys[1..] == xs[1..][a - 1 := Some(i)];
      PresentUpdate(xs[1..], a - 1, i);
    }
  }

  lemma {:induction false} PresentBlank(xs: seq<Option<Interface>>, k: nat)
    ensures Present(xs + Blank(k)) == Present(xs)
    decreases |xs| + k
  {
    if xs != [] {
      assert (xs + Blank(k))[1..] == xs[1..] + Blank(k);
      PresentBlank(xs[1..], k);
    } else if k > 0 {
      assert (xs + Blank<Interface>(k))[1..] == xs + Blank(k - 1);
      PresentBlank(xs, k - 1);
    }
  }

  lemma AddedToGroup(g: Group, i: Interface)
    requires i.Alternate() < |g.alternates| ==> g.alternates[i.Alternate()] == None
    ensures multiset(InGroup(Some(AddToGroup(g, i)))) == multiset(InGroup(Some(g))) + multiset{i}
  {
    var a := i.Alternate() as int;
    var k := if a >= |g.alternates| then a + 1 - |g.alternates| else 0;
    PresentBlank(g.alternates, k);
    assert g.alternates + Blank(0) == g.alternates;
    PresentUpdate(g.alternates + Blank(k), a, i);
  }

  lemma {:induction false} InGroupsUpdate(gs: seq<Option<Group>>, n: nat, g: Option<Group>, i: Interface)
    requires n < |gs| && multiset(InGroup(g)) == multiset(InGroup(gs[n])) + multiset{i}
    ensures multiset(InGroups(gs[n := g])) == multiset(InGroups(gs)) + multiset{i}
  {
    hide InGroup, InGroups;
    var hs := gs[n := g];
    GroupsBag(gs);
    GroupsBag(hs);
    if n == 0 {
      assert hs[1..] == gs[1..];
    } else {
      assert hs[1..] == gs[1..][n - 1 := g];
      InGroupsUpdate(gs[1..], n - 1, g, i);
    }
  }

  lemma GroupsBag(gs: seq<Option<Group>>)
    requires gs != []
    ensures multiset(InGroups(gs)) == multiset(InGroup(gs[0])) + multiset(InGroups(gs[1..]))
  {
    hide InGroup;
  }

  lemma AddedOnce(gs: seq<Option<Group>>, i: Interface)
    requires i.Number() < |gs| && Lookup(gs, i.Number(), i.Alternate()) == None
    ensures multiset(InGroups(AddInterface(gs, i))) == multiset(InGroups(gs)) + multiset{i}
  {
    var n := i.Number();
    var g := if gs[n].Some? then gs[n].value else Group(n, []);
    AddedToGroup(g, i);
    assert InGroup(Some(Group(n, []))) == [];
    InGroupsUpdate(gs, n, Some(AddToGroup(g, i)), i);
  }

  /** Groups stay keyed and no longer than 255 alternates. */
  predicate Fitting(gs: seq<Option<Group>>) {
    && Canonical(gs) && Keyed(gs, 0)
    && forall n :: 0 <= n < |gs| && gs[n].Some? ==> |gs[n].value.alternates| <= 255
  }

  lemma AddedFits(gs: seq<Option<Group>>, i: Interface)
    requires Fitting(gs) && Placed(i, |gs|)
    ensures Fitting(AddInterface(gs, i))
  {
    AddedCanonical(gs, i);
  }

  lemma {:induction false} FindNone(its: seq<Interface>, i: Interface)
    requires forall k :: 0 <= k < |its| ==> Key(its[k]) != Key(i)
    ensures Find(its, i.Number(), i.Alternate()) == None
  {
    if its != [] {
      FindNone(its[..|its| - 1], i);
    }
  }

  lemma {:induction false} EmptyGroups(n: nat)
    ensures InGroups(Blank(n)) == []
  {
    if n > 0 {
      assert Blank<Group>(n)[1..] == Blank(n - 1);
      EmptyGroups(n - 1);
    }
  }

  lemma {:induction false} AllAddedOnce(n: nat, its: seq<Interface>)
    requires DistinctKeys(its)
    requires forall k :: 0 <= k < |its| ==> its[k].Number() < n
    requires forall k :: 0 <= k < |its| ==> its[k].Alternate() <= 254
    ensures Fitting(AddAll(Blank(n), its))
    ensures multiset(InGroups(AddAll(Blank(n), its))) == multiset(its)
  {
    hide Fitting, InGroups, Lookup, AddInterface;
    if its == [] {
      EmptyGroups(n);
      BlankFits(n);
    } else {
      var init, last := its[..|its| - 1], its[|its| - 1];
      AllAddedOnce(n, init);
      PlaceIsFree(n, init, last);
      AddedOnce(AddAll(Blank(n), init), last);
      assert Placed(last, n);
      AddedFits(AddAll(Blank(n), init), last);
      assert its == init + [last];
    }
  }

  lemma PlaceIsFree(n: nat, its: seq<Interface>, i: Interface)
    requires forall k :: 0 <= k < |its| ==> its[k].Number() < n
    requires forall k :: 0 <= k < |its| ==> Key(its[k]) != Key(i)
    ensures Lookup(AddAll(Blank(n), its), i.Number(), i.Alternate()) == None
  {
    hide AddAll, Canonical, Find;
    BlankFits(n);
    FindNone(its, i);
    AddAllLookup(Blank(n), its, i.Number(), i.Alternate());
  }

  lemma BlankFits(n: nat)
    ensures Fitting(Blank(n)) && Canonical(Blank(n))
  {}

  // ----- Permutations -----

  lemma {:induction false} PiecesWithout(its: seq<Interface>, k: nat)
    requires k < |its| && forall j :: 0 <= j < |its| ==> Printable(its[j])
    ensures forall j :: 0 <= j < |Without(its, k)| ==> Printable(Without(its, k)[j])
    ensures Bag(PiecesOf(its)) == Bag(PiecesOf(Without(its, k))) + Bag(Pieces(its[k]))
  {
    hide Printable, Pieces, Without, Bag;
    WithoutLater(its, k);
    BagAppend(Pieces(its[0]), PiecesOf(its[1..]));
    if k > 0 {
      var rest := Without(its[1..], k - 1);
      PiecesWithout(its[1..], k - 1);
      assert Without(its, k)[0] == its[0] && Without(its, k)[1..] == rest;
      BagAppend(Pieces(its[0]), PiecesOf(rest));
    }
  }

  lemma BagAppend(a: seq<Bytes>, b: seq<Bytes>)
    ensures Bag(a + b) == Bag(a) + Bag(b)
  {}

  lemma {:induction false} PermutedPieces(a: seq<Interface>, b: seq<Interface>)
    requires multiset(a) == multiset(b)
    requires (forall j :: 0 <= j < |a| ==> Printable(a[j])) && (forall j :: 0 <= j < |b| ==> Printable(b[j]))
    ensures Bag(PiecesOf(a)) == Bag(PiecesOf(b))
  {
    hide Printable, Pieces;
    if a == [] {
      assert |multiset(b)| == 0;
    } else {
      var k := MatchFirst(a, b);
      PiecesWithout(b, k);
      PermutedPieces(a[1..], Without(b, k));
    }
  }

  lemma {:induction false} SegmentsRearranged(ss: seq<Segment>)
    requires forall k :: 0 <= k < |ss| ==> Parsable(ss[k])
    requires forall k :: 0 <= k < |ss| ==> Tidy(ss[k])
    ensures |MakeInterfaces(ss)| == |ss|
    ensures forall k :: 0 <= k < |ss| ==> MakeInterfaces(ss)[k] == MakeInterface(ss[k])
    ensures forall k :: 0 <= k < |MakeInterfaces(ss)| ==> WellFormedInterface(MakeInterfaces(ss)[k])
    ensures forall k :: 0 <= k < |MakeInterfaces(ss)| ==> Printable(MakeInterfaces(ss)[k])
    ensures Bag(PiecesOf(MakeInterfaces(ss))) == Bag(RecordsIn(ss))
  {
    hide WellFormedInterface, Printable, Pieces, MakeInterface;
    if ss != [] {
      SegmentIsRearranged(ss[0]);
      TidyInterface(ss[0]);
      SegmentsRearranged(ss[1..]);
    }
  }

  // ----- The theorem -----

  /** What the tree parsed from a well-formed block holds, and that it is well formed itself. */
  lemma ParsedTree(desc: Desc9, rs: seq<Record>)
    requires WellFormedBlock(desc, rs)
    ensures var t, its := ParseRecords(desc, rs), MakeInterfaces(Segments(rs));
            && WellFormedTree(t) && multiset(InGroups(t.groups)) == multiset(its)
            && (forall k :: 0 <= k < |InGroups(t.groups)| ==> Printable(InGroups(t.groups)[k]))
            && (forall k :: 0 <= k < |its| ==> Printable(its[k]))
  {
    hide WellFormedInterface, Printable, MakeInterface, Segments, HasInterface, Canonical, Keyed, InGroups, AddAll,
         MakeInterfaces, Parsable, Pieces, PiecesOf, RecordsIn;
    var ss, n := Segments(rs), desc[4] as int;
    var its := MakeInterfaces(ss);
    var t := ParseRecords(desc, rs);
    SegmentsRearranged(ss);
    forall k | 0 <= k < |its|
      ensures its[k].Number() < n && its[k].Alternate() <= 254
    {
      assert Placed(MakeInterface(ss[k]), n);
    }
    AllAddedOnce(n, its);
    forall k | 0 <= k < |InGroups(t.groups)|
      ensures WellFormedInterface(InGroups(t.groups)[k]) && Printable(InGroups(t.groups)[k])
    {
      assert InGroups(t.groups)[k] in multiset(its);
    }
  }

  lemma RearrangedRecords(desc: Desc9, rs: seq<Record>)
    requires WellFormedBlock(desc, rs)
    ensures var its := InGroups(ParseRecords(desc, rs).groups);
            && (forall k :: 0 <= k < |its| ==> Printable(its[k]))
            && Bag(PiecesOf(its)) == Bag(rs)
  {
    hide WellFormedInterface, WellFormedTree, Printable, MakeInterface, Segments, InGroups, PiecesOf, RecordsIn;
    ParsedTree(desc, rs);
    SegmentsRearranged(Segments(rs));
    SegmentsCover(rs);
    PermutedPieces(InGroups(ParseRecords(desc, rs).groups), MakeInterfaces(Segments(rs)));
  }

  lemma SameLength(a: seq<Bytes>, b: seq<Bytes>)
    requires Bag(a) == Bag(b)
    ensures |Flatten(a)| == |Flatten(b)|
  {
    PermutationLength(a, b);
    FlattenLength(a);
    FlattenLength(b);
  }

  /**
   The parse loop and the printer: for every well-formed block the printed records are the input
   records, rearranged; the total length is the same; and a second parse and print change nothing.
   */
  lemma LoopNormalForm(desc: Desc9, rs: seq<Record>)
    requires WellFormedBlock(desc, rs)
    ensures var t := ParseRecords(desc, rs);
            && PrintableTree(t)
            && Print(t) == desc + Flatten(PiecesOf(InGroups(t.groups)))
            && Bag(PiecesOf(InGroups(t.groups))) == Bag(rs)
            && |Print(t)| == |desc| + |Flatten(rs)|
            && ParsableBytes(Print(t)) && Parse(Print(t)) == t
  {
    hide Printable, ParsableBlock, ParsableBytes, Parse, WellFormedTree, InGroups, Flatten, PiecesOf, Bag, AddAll,
         MakeInterfaces;
    ParsedTree(desc, rs);
    RearrangedRecords(desc, rs);
    LoopAfterPrint(ParseRecords(desc, rs));
    SameLength(PiecesOf(InGroups(ParseRecords(desc, rs).groups)), rs);
    assert Cut(desc) == desc;
  }

  /**
   The records of a block fall into one contiguous segment per interface descriptor, in input order;
   each interface keeps the generic and the endpoint descriptors of its segment in their order.
   */
  lemma OrderWithinInterfaces(desc: Desc9, rs: seq<Record>, k: nat)
    requires WellFormedBlock(desc, rs) && k < |Segments(rs)|
    ensures RecordsIn(Segments(rs)) == rs && |Segments(rs)| == |Select(rs, IsInterface)|
    ensures var s, gs := Segments(rs)[k], ParseRecords(desc, rs).groups;
            && Lookup(gs, s.head[2], s.head[3]) == Some(MakeInterface(s))
            && MakeInterface(s).desc == s.head
            && MakeInterface(s).generics == Select(s.All(), IsGeneric)
            && Present(MakeInterface(s).endpoints) == Select(s.All(), IsEndpoint)
  {
    hide Select, Present, UpToInterface, LastHid, Endpoints, Segments, HasInterface, AddAll, Find, RecordsIn;
    var ss := Segments(rs);
    var its := MakeInterfaces(ss);
    var s := ss[k];
    SegmentsCover(rs);
    SegmentCount(rs);
    OrderIsKept(s);
    SegmentsRearranged(ss);
    FindDistinct(its, k);
    AddAllLookup(Blank(desc[4]), its, s.head[2], s.head[3]);
  }

  lemma {:induction false} FindDistinct(its: seq<Interface>, k: nat)
    requires DistinctKeys(its) && k < |its|
    ensures Find(its, its[k].Number(), its[k].Alternate()) == Some(its[k])
  {
    if k < |its| - 1 {
      assert Key(its[k]) != Key(its[|its| - 1]);
      FindDistinct(its[..|its| - 1], k);
    }
  }
}

/** The order in which a tree is printed. */
module DescriptorOrder {
  import opened Common
  import opened Records
  import opened DescriptorTree
  import opened DescriptorBuild
  import opened DescriptorRoundTrip

  /** HID before generic, generic before endpoint descriptors. */
  function Rank(r: Record): nat {
    if r[1] == 0x21 then 0 else if r[1] != 5 then 1 else 2
  }

  predicate Ranked(rs: seq<Record>) {
    forall j, k :: 0 <= j < k < |rs| ==> Rank(rs[j]) <= Rank(rs[k])
  }

  /** By interface number, then by alternate setting. */
  predicate Precedes(x: Interface, y: Interface) {
    x.desc[2] < y.desc[2] || (x.desc[2] == y.desc[2] && x.desc[3] < y.desc[3])
  }

  predicate Sorted(its: seq<Interface>) {
    forall j, k :: 0 <= j < k < |its| ==> Precedes(its[j], its[k])
  }

  lemma {:induction false} GroupIsSorted(alternates: seq<Option<Interface>>, n: nat, from: nat)
    requires KeyedGroup(alternates, n, from)
    ensures Sorted(Present(alternates))
    ensures forall i :: i in Present(alternates) ==> i.desc[2] as int == n && i.desc[3] as int >= from
  {
    if alternates != [] {
      var rest := alternates[1..];
      assert KeyedGroup(rest, n, from + 1) by {
        assert forall k :: 0 <= k < |rest| ==> rest[k] == alternates[k + 1];
      }
      GroupIsSorted(rest, n, from + 1);
    }
  }

  lemma {:induction false} GroupsAreSorted(gs: seq<Option<Group>>, from: nat)
    requires Keyed(gs, from)
    ensures Sorted(InGroups(gs))
  {
    hide Present;
    if gs != [] {
      var first, rest := InGroup(gs[0]), gs[1..];
      assert Keyed(rest, from + 1) by {
        assert forall k :: 0 <= k < |rest| ==> rest[k] == gs[k + 1];
      }
      GroupsAreSorted(rest, from + 1);
      KeyedNumbers(rest, from + 1);
      if gs[0].Some? {
        GroupIsSorted(gs[0].value.alternates, from, 0);
      }
      SortedSum(first, InGroups(rest));
    }
  }

  lemma SortedSum(a: seq<Interface>, b: seq<Interface>)
    requires Sorted(a) && Sorted(b) && forall x, y :: x in a && y in b ==> Precedes(x, y)
    ensures Sorted(a + b)
  {
    forall j, k | 0 <= j < k < |a + b|
      ensures Precedes((a + b)[j], (a + b)[k])
    {
      if j < |a| <= k {
        assert a[j] in a && b[k - |a|] in b;
      }
    }
  }

  lemma BodyIsRanked(i: Interface)
    requires WellFormedInterface(i)
    ensures SegmentOf(i).lead == [] && SegmentOf(i).head == i.desc && Ranked(SegmentOf(i).body)
  {
    hide Present, EndpointPieces, EndpointRecords;
    EndpointRecordsAre(i.endpoints);
  }

  /**
   What is printed after the configuration descriptor, cut before each interface descriptor: the interface
   descriptors come by number and alternate setting, nothing stands before the first, and behind each of them come
   its HID descriptor, its generic descriptors and its endpoints, in this order.
   */
  lemma PrintedInOrder(t: Tree)
    requires WellFormedTree(t)
    ensures PrintableTree(t) && |Print(t)| >= 9 && Print(t)[..9] == t.desc && Split(Print(t)[9..]).Some?
    ensures var ss := Segments(Split(Print(t)[9..]).value);
            && (forall k :: 0 <= k < |ss| ==> ss[k].lead == [] && |ss[k].head| == 9 && Ranked(ss[k].body))
            && (forall j, k :: 0 <= j < k < |ss| ==>
                  ss[j].head[2] < ss[k].head[2]
                  || (ss[j].head[2] == ss[k].head[2] && ss[j].head[3] < ss[k].head[3]))
  {
    hide WellFormedInterface, Canonical, Keyed, InGroups, Split, Flatten, PiecesOf, Segments, Printable, SegmentOf,
         HasInterface;
    var its := InGroups(t.groups);
    var rs := RecordsIn(SegmentsOf(its));
    PrintedSegments(its);
    RemadeInterfaces(its);
    SplitFlatten(rs);
    GroupsAreSorted(t.groups, 0);
    assert Cut(t.desc) == t.desc;
    assert Print(t)[..9] == t.desc && Print(t)[9..] == Flatten(rs);
    forall k | 0 <= k < |its|
      ensures SegmentOf(its[k]).lead == [] && SegmentOf(its[k]).head == its[k].desc && Ranked(SegmentOf(its[k]).body)
    {
      BodyIsRanked(its[k]);
    }
  }
}

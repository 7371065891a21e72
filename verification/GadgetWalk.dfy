/** When the walk and the printer agree on where the active interfaces are, and what the walk does then. */
module GadgetWalk {
  import opened Common
  import opened Records
  import opened DescriptorTree
  import opened DescriptorValidity
  import opened DescriptorObjects
  import opened GadgetBlob

  // ----- Where the printer puts the active interfaces -----

  /** Every interface number has an active interface that can be walked. */
  predicate Ready(gs: seq<Option<Group>>, active: seq<int>) {
    && |active| == |gs|
    && (forall k :: 0 <= k < |gs| ==> ActiveOf(gs[k], active[k]).Some?)
    && (forall k :: 0 <= k < |gs| ==> Walkable(ActiveOf(gs[k], active[k]).value))
  }

  /** Every interface can be printed and takes some room. */
  predicate Sized(its: seq<Interface>) {
    AllPrintable(its) && forall k :: 0 <= k < |its| ==> its[k].desc[0] > 0
  }

  function TheActive(gs: seq<Option<Group>>, active: seq<int>, k: nat): Interface
    requires Ready(gs, active) && k < |gs|
  { ActiveOf(gs[k], active[k]).value }

  function Above(gs: seq<Option<Group>>, active: seq<int>, k: nat): seq<Interface>
    requires Ready(gs, active) && k < |gs|
  { Present(gs[k].value.alternates[..active[k]]) }

  function Below(gs: seq<Option<Group>>, active: seq<int>, k: nat): seq<Interface>
    requires Ready(gs, active) && k < |gs|
  { Present(gs[k].value.alternates[active[k] + 1..]) }

  /** The interfaces printed before the active one of number `k`. */
  function Earlier(gs: seq<Option<Group>>, active: seq<int>, k: nat): seq<Interface>
    requires Ready(gs, active) && k < |gs|
  { InGroups(gs[..k]) + Above(gs, active, k) }

  function PrintOffset(gs: seq<Option<Group>>, active: seq<int>, k: nat): nat
    requires Ready(gs, active) && k < |gs|
  { 9 + InterfacesLength(Earlier(gs, active, k)) }

  // ----- The condition -----

  predicate NoneOf(xs: seq<Option<Interface>>) {
    forall a :: 0 <= a < |xs| ==> xs[a] == None
  }

  /**
   Every group but the last has exactly one alternate, the active one; in the last one no alternate comes
   before the active one.
   */
  predicate Aligned(gs: seq<Option<Group>>, active: seq<int>)
    requires Ready(gs, active)
  {
    forall k :: 0 <= k < |gs| ==>
      && NoneOf(gs[k].value.alternates[..active[k]])
      && (k + 1 < |gs| ==> NoneOf(gs[k].value.alternates[active[k] + 1..]))
  }

  lemma {:induction false} NoneIsAbsent(xs: seq<Option<Interface>>)
    ensures NoneOf(xs) <==> Present(xs) == []
  {
    if xs != [] {
      NoneIsAbsent(xs[1..]);
      assert NoneOf(xs) <==> xs[0] == None && NoneOf(xs[1..]) by {
        assert forall a :: 0 < a < |xs| ==> xs[a] == xs[1..][a - 1];
      }
    }
  }

  lemma AlignedLists(gs: seq<Option<Group>>, active: seq<int>)
    requires Ready(gs, active)
    ensures Aligned(gs, active) <==>
              forall k :: 0 <= k < |gs| ==>
                Above(gs, active, k) == [] && (k + 1 < |gs| ==> Below(gs, active, k) == [])
  {
    forall k | 0 <= k < |gs|
      ensures NoneOf(gs[k].value.alternates[..active[k]]) <==> Above(gs, active, k) == []
      ensures NoneOf(gs[k].value.alternates[active[k] + 1..]) <==> Below(gs, active, k) == []
    {
      NoneIsAbsent(gs[k].value.alternates[..active[k]]);
      NoneIsAbsent(gs[k].value.alternates[active[k] + 1..]);
    }
  }

  // ----- Lists of interfaces -----

  lemma {:induction false} PresentAppend(a: seq<Option<Interface>>, b: seq<Option<Interface>>)
    ensures Present(a + b) == Present(a) + Present(b)
  {
    if a == [] {
      assert a + b == b;
    } else {
      TailOfSum(a, b);
      PresentAppend(a[1..], b);
    }
  }

  lemma {:induction false} InGroupsAppend(a: seq<Option<Group>>, b: seq<Option<Group>>)
    ensures InGroups(a + b) == InGroups(a) + InGroups(b)
  {
    hide InGroup;
    if a == [] {
      assert a + b == b;
    } else {
      TailOfSum(a, b);
      InGroupsAppend(a[1..], b);
    }
  }

  lemma PresentOne(x: Option<Interface>)
    ensures Present([x]) == if x.Some? then [x.value] else []
  {
    assert [x][1..] == [];
  }

  lemma GroupAround(g: Option<Group>, a: int)
    requires ActiveOf(g, a).Some?
    ensures InGroup(g) == Present(g.value.alternates[..a]) + [ActiveOf(g, a).value]
              + Present(g.value.alternates[a + 1..])
  {
    hide Present;
    var xs := g.value.alternates;
    Around(xs, a);
    PresentAppend(xs[..a], [xs[a]] + xs[a + 1..]);
    PresentAppend([xs[a]], xs[a + 1..]);
    PresentOne(xs[a]);
  }

  lemma OneGroup(g: Option<Group>)
    ensures InGroups([g]) == InGroup(g)
  {
    assert [g][1..] == [];
    assert InGroups([g][1..]) == [];
  }

  /** The printed interfaces, from the active one of number `k` on. */
  function Later(gs: seq<Option<Group>>, active: seq<int>, k: nat): seq<Interface>
    requires Ready(gs, active) && k < |gs|
  { Below(gs, active, k) + InGroups(gs[k + 1..]) }

  lemma GroupsAround(gs: seq<Option<Group>>, k: nat)
    requires k < |gs|
    ensures InGroups(gs) == InGroups(gs[..k]) + (InGroup(gs[k]) + InGroups(gs[k + 1..]))
  {
    hide InGroups, InGroup;
    Around(gs, k);
    InGroupsAppend(gs[..k], [gs[k]] + gs[k + 1..]);
    InGroupsAppend([gs[k]], gs[k + 1..]);
    OneGroup(gs[k]);
  }

  lemma PrintedAround(gs: seq<Option<Group>>, active: seq<int>, k: nat)
    requires Ready(gs, active) && k < |gs|
    ensures InGroups(gs) == Earlier(gs, active, k) + [TheActive(gs, active, k)] + Later(gs, active, k)
  {
    hide Present, InGroups, InGroup;
    GroupsAround(gs, k);
    GroupAround(gs[k], active[k]);
    hide Ready;
    Regrouped(InGroups(gs[..k]), Above(gs, active, k), TheActive(gs, active, k), Below(gs, active, k),
              InGroups(gs[k + 1..]));
  }

  lemma Regrouped(x: seq<Interface>, u: seq<Interface>, i: Interface, v: seq<Interface>, y: seq<Interface>)
    ensures x + ((u + [i] + v) + y) == (x + u) + [i] + (v + y)
  {}

  /** The next active interface is printed after this one, the rest of its group and what precedes it in its own. */
  lemma NextEarlier(gs: seq<Option<Group>>, active: seq<int>, k: nat)
    requires Ready(gs, active) && k + 1 < |gs|
    ensures Earlier(gs, active, k + 1)
         == Earlier(gs, active, k) + [TheActive(gs, active, k)] + Below(gs, active, k) + Above(gs, active, k + 1)
  {
    hide Present, InGroups, InGroup;
    assert gs[..k + 1] == gs[..k] + [gs[k]];
    InGroupsAppend(gs[..k], [gs[k]]);
    OneGroup(gs[k]);
    GroupAround(gs[k], active[k]);
  }

  lemma LengthOfOne(i: Interface)
    ensures InterfacesLength([i]) == InterfaceLength(i)
  {
    assert [i][1..] == [];
  }

  lemma NextOffset(gs: seq<Option<Group>>, active: seq<int>, k: nat)
    requires Ready(gs, active) && k + 1 < |gs|
    ensures PrintOffset(gs, active, k + 1)
         == PrintOffset(gs, active, k) + InterfaceLength(TheActive(gs, active, k))
            + InterfacesLength(Below(gs, active, k)) + InterfacesLength(Above(gs, active, k + 1))
  {
    hide Earlier, Above, Below, TheActive, InterfacesLength, InterfaceLength, Ready;
    NextEarlier(gs, active, k);
    var e, i, b, a := Earlier(gs, active, k), TheActive(gs, active, k), Below(gs, active, k), Above(gs, active, k + 1);
    InterfacesLengthAppend(e + [i] + b, a);
    InterfacesLengthAppend(e + [i], b);
    InterfacesLengthAppend(e, [i]);
    LengthOfOne(i);
  }

  lemma NoLengthNoInterface(its: seq<Interface>)
    requires Sized(its)
    ensures InterfacesLength(its) == 0 <==> its == []
  {}

  // ----- One turn -----

  lemma SizedParts(a: seq<Interface>, b: seq<Interface>)
    requires Sized(a + b)
    ensures Sized(a) && Sized(b)
    ensures Flatten(PiecesOf(a + b)) == Flatten(PiecesOf(a)) + Flatten(PiecesOf(b))
  {
    hide Flatten, PiecesOf, Printable;
    SplitPieces(a, b);
    assert forall k :: 0 <= k < |a| ==> a[k] == (a + b)[k];
    assert forall k :: 0 <= k < |b| ==> b[k] == (a + b)[|a| + k];
  }

  lemma BytesOfOne(i: Interface)
    requires Printable(i)
    ensures AllPrintable([i]) && Flatten(PiecesOf([i])) == Flatten(Pieces(i))
  {
    FirstInterface(i, []);
    NoPieces();
    assert [i] + [] == [i];
  }

  /** The printed bytes, cut at the active interface of number `k`. */
  lemma BytesAround(header: Bytes, gs: seq<Option<Group>>, active: seq<int>, k: nat)
    requires Ready(gs, active) && k < |gs| && Sized(InGroups(gs)) && |header| == 9
    ensures var e, i, l := Earlier(gs, active, k), TheActive(gs, active, k), Later(gs, active, k);
            && Sized(e) && Sized(l) && Printable(i)
            && header + Flatten(PiecesOf(InGroups(gs)))
               == (header + Flatten(PiecesOf(e))) + Flatten(Pieces(i)) + Flatten(PiecesOf(l))
            && |header + Flatten(PiecesOf(e))| == PrintOffset(gs, active, k)
            && |Flatten(Pieces(i))| == InterfaceLength(i)
  {
    hide Flatten, PiecesOf, Pieces, InGroups, Earlier, Later, Printable, TheActive, Ready, InterfaceLength;
    var e, i, l := Earlier(gs, active, k), TheActive(gs, active, k), Later(gs, active, k);
    PrintedAround(gs, active, k);
    SizedParts(e + [i], l);
    SizedParts(e, [i]);
    assert [i][0] == i;
    BytesOfOne(i);
    InterfacesLengthIs(e);
    InterfaceLengthIs(i);
  }

  /** A turn that starts where the printer put the active interface rewrites it, and ends right behind it. */
  lemma WalkTurn(header: Bytes, gs: seq<Option<Group>>, active: seq<int>, k: nat, c: Bytes)
    requires Ready(gs, active) && k < |gs| && Sized(InGroups(gs)) && |header| == 9
    requires var b, p := header + Flatten(PiecesOf(InGroups(gs))), PrintOffset(gs, active, k);
             && |c| == |b| && p <= |b| && c[p..] == b[p..]
             && WalkState(b, gs, active, k) == Some((c, p))
    ensures var b, p := header + Flatten(PiecesOf(InGroups(gs))), PrintOffset(gs, active, k);
            var i, l := TheActive(gs, active, k), Later(gs, active, k);
            var q := p + InterfaceLength(i);
            && q <= |b| && Sized(l) && b[q..] == Flatten(PiecesOf(l)) && Printable(Boosted(i))
            && |Flatten(Pieces(Boosted(i)))| == InterfaceLength(i)
            && WalkState(b, gs, active, k + 1) == Some((c[..p] + Flatten(Pieces(Boosted(i))) + b[q..], q))
  {
    hide Flatten, PiecesOf, Pieces, InGroups, Later, Printable, Boosted, InterfaceLength, Skip, WalkEndpointBytes,
         PrintOffset;
    var b, p := header + Flatten(PiecesOf(InGroups(gs))), PrintOffset(gs, active, k);
    var i, l := TheActive(gs, active, k), Later(gs, active, k);
    BytesAround(header, gs, active, k);
    SameInterfaceLength(i);
    var q := p + InterfaceLength(i);
    assert b[q..] == Flatten(PiecesOf(l)) && c[p..] == Flatten(Pieces(i)) + Flatten(PiecesOf(l));
    assert c == c[..p] + Flatten(Pieces(i)) + Flatten(PiecesOf(l));
    InterfaceWalked(i, c[..p], Flatten(PiecesOf(l)));
  }

  // ----- Agreement -----

  function Pointer(b: Bytes, gs: seq<Option<Group>>, active: seq<int>, k: nat): Option<nat>
    requires k <= |gs| == |active|
  {
    if WalkState(b, gs, active, k) == None then None else Some(WalkState(b, gs, active, k).value.1)
  }

  /** Up to turn `k` the pointer has always been where the printer put the active interface. */
  predicate AgreeUpTo(b: Bytes, gs: seq<Option<Group>>, active: seq<int>, k: nat)
    requires Ready(gs, active) && k <= |gs|
  {
    forall j :: 0 <= j < k ==> Pointer(b, gs, active, j) == Some(PrintOffset(gs, active, j))
  }

  /** Then what lies ahead of the pointer is still as printed. */
  lemma {:induction false} AheadIsPrinted(header: Bytes, gs: seq<Option<Group>>, active: seq<int>, k: nat)
      returns (c: Bytes)
    requires Ready(gs, active) && k < |gs| && Sized(InGroups(gs)) && |header| == 9
    requires AgreeUpTo(header + Flatten(PiecesOf(InGroups(gs))), gs, active, k + 1)
    ensures var b, p := header + Flatten(PiecesOf(InGroups(gs))), PrintOffset(gs, active, k);
            && |c| == |b| && p <= |b| && c[p..] == b[p..]
            && WalkState(b, gs, active, k) == Some((c, p))
    decreases k
  {
    hide Flatten, PiecesOf, Pieces, InGroups, Later, Printable, Boosted, InterfaceLength, InterfacesLength, WalkState;
    var b := header + Flatten(PiecesOf(InGroups(gs)));
    BytesAround(header, gs, active, k);
    assert Pointer(b, gs, active, k) == Some(PrintOffset(gs, active, k));
    if k == 0 {
      WalkStarts(b, gs, active);
      c := b;
    } else {
      var c0 := AheadIsPrinted(header, gs, active, k - 1);
      WalkTurn(header, gs, active, k - 1, c0);
      NextOffset(gs, active, k - 1);
      c := WalkState(b, gs, active, k).value.0;
    }
  }

  lemma WalkStarts(b: Bytes, gs: seq<Option<Group>>, active: seq<int>)
    requires |gs| == |active|
    ensures WalkState(b, gs, active, 0) == Some((b, 9))
  {}

  lemma PartsAreSized(gs: seq<Option<Group>>, active: seq<int>, k: nat)
    requires Ready(gs, active) && k < |gs| && Sized(InGroups(gs))
    ensures Sized(Above(gs, active, k)) && Sized(Below(gs, active, k)) && TheActive(gs, active, k).desc[0] > 0
  {
    hide Flatten, PiecesOf, InGroups, Present, Printable, Ready;
    PrintedAround(gs, active, k);
    var e, i, l := Earlier(gs, active, k), TheActive(gs, active, k), Later(gs, active, k);
    SizedParts(e + [i], l);
    SizedParts(e, [i]);
    SizedParts(InGroups(gs[..k]), Above(gs, active, k));
    SizedParts(Below(gs, active, k), InGroups(gs[k + 1..]));
    assert [i][0] == i;
  }

  lemma FirstOffset(gs: seq<Option<Group>>, active: seq<int>)
    requires Ready(gs, active) && gs != []
    ensures PrintOffset(gs, active, 0) == 9 + InterfacesLength(Above(gs, active, 0))
  {
    assert gs[..0] == [] && InGroups(gs[..0]) == [];
    assert Earlier(gs, active, 0) == Above(gs, active, 0);
  }

  lemma {:induction false} AlignedAgrees(header: Bytes, gs: seq<Option<Group>>, active: seq<int>, k: nat)
    requires Ready(gs, active) && k <= |gs| && Sized(InGroups(gs)) && |header| == 9 && Aligned(gs, active)
    ensures AgreeUpTo(header + Flatten(PiecesOf(InGroups(gs))), gs, active, k)
    decreases k
  {
    hide Flatten, PiecesOf, InGroups, Printable, InterfaceLength, WalkState, PrintOffset, Aligned;
    var b := header + Flatten(PiecesOf(InGroups(gs)));
    AlignedLists(gs, active);
    if k > 0 {
      AlignedAgrees(header, gs, active, k - 1);
      if k == 1 {
        FirstOffset(gs, active);
        WalkStarts(b, gs, active);
      } else {
        var c := AheadIsPrinted(header, gs, active, k - 2);
        WalkTurn(header, gs, active, k - 2, c);
        NextOffset(gs, active, k - 2);
      }
    }
  }

  lemma AgreesOnlyIf(header: Bytes, gs: seq<Option<Group>>, active: seq<int>, k: nat)
    requires Ready(gs, active) && k < |gs| && Sized(InGroups(gs)) && |header| == 9
    requires AgreeUpTo(header + Flatten(PiecesOf(InGroups(gs))), gs, active, |gs|)
    ensures k == 0 ==> Above(gs, active, k) == []
    ensures k + 1 < |gs| ==> Below(gs, active, k) == [] && Above(gs, active, k + 1) == []
  {
    hide Flatten, PiecesOf, InGroups, Printable, InterfaceLength, WalkState, PrintOffset, Above, Below,
         InterfacesLength;
    var b := header + Flatten(PiecesOf(InGroups(gs)));
    PartsAreSized(gs, active, k);
    assert Pointer(b, gs, active, k) == Some(PrintOffset(gs, active, k));
    if k == 0 {
      FirstOffset(gs, active);
      WalkStarts(b, gs, active);
      NoLengthNoInterface(Above(gs, active, 0));
    }
    if k + 1 < |gs| {
      PartsAreSized(gs, active, k + 1);
      assert Pointer(b, gs, active, k + 1) == Some(PrintOffset(gs, active, k + 1));
      var c := AheadIsPrinted(header, gs, active, k);
      WalkTurn(header, gs, active, k, c);
      NextOffset(gs, active, k);
      NoLengthNoInterface(Below(gs, active, k));
      NoLengthNoInterface(Above(gs, active, k + 1));
    }
  }

  /**
   On the printed bytes of a configuration, the pointer is at every active interface when its turn comes if
   and only if every group but the last has one alternate, and in the last no alternate comes before the
   active one.
   */
  lemma AgreesExactly(header: Bytes, gs: seq<Option<Group>>, active: seq<int>)
    requires Ready(gs, active) && Sized(InGroups(gs)) && |header| == 9
    ensures AgreeUpTo(header + Flatten(PiecesOf(InGroups(gs))), gs, active, |gs|) <==> Aligned(gs, active)
  {
    hide Flatten, PiecesOf, InGroups, Printable, WalkState, PrintOffset, Aligned, Ready, AgreeUpTo, Above, Below;
    AlignedLists(gs, active);
    if Aligned(gs, active) {
      AlignedAgrees(header, gs, active, |gs|);
    }
    if AgreeUpTo(header + Flatten(PiecesOf(InGroups(gs))), gs, active, |gs|) {
      forall k | 0 <= k < |gs|
        ensures Above(gs, active, k) == [] && (k + 1 < |gs| ==> Below(gs, active, k) == [])
      {
        AgreesOnlyIf(header, gs, active, k);
        if k > 0 {
          AgreesOnlyIf(header, gs, active, k - 1);
        }
      }
    }
  }

  // ----- What the walk does where they agree -----

  function BoostedGroup(g: Option<Group>, a: int): Option<Group>
    requires ActiveOf(g, a).Some? && Walkable(ActiveOf(g, a).value)
  {
    Some(g.value.(alternates := g.value.alternates[a := Some(Boosted(ActiveOf(g, a).value))]))
  }

  /** The same tree, with new intervals in the active interfaces. */
  function BoostedActive(gs: seq<Option<Group>>, active: seq<int>): (r: seq<Option<Group>>)
    requires Ready(gs, active)
    ensures |r| == |gs|
    ensures forall k :: 0 <= k < |gs| ==> r[k] == BoostedGroup(gs[k], active[k])
  {
    seq(|gs|, k requires 0 <= k < |gs| => BoostedGroup(gs[k], active[k]))
  }

  lemma BoostedAround(gs: seq<Option<Group>>, active: seq<int>, k: nat)
    requires Ready(gs, active) && k < |gs|
    ensures InGroup(BoostedActive(gs, active)[k])
         == Above(gs, active, k) + [Boosted(TheActive(gs, active, k))] + Below(gs, active, k)
  {
    hide Present;
    var g, a := gs[k], active[k];
    var h := BoostedGroup(g, a);
    GroupAround(h, a);
    assert h.value.alternates[..a] == g.value.alternates[..a];
    assert h.value.alternates[a + 1..] == g.value.alternates[a + 1..];
  }

  /** The boosted interfaces of the numbers below `k`. */
  function Done(gs: seq<Option<Group>>, active: seq<int>, k: nat): seq<Interface>
    requires Ready(gs, active) && k <= |gs|
  { InGroups(BoostedActive(gs, active)[..k]) }

  lemma DoneOne(gs: seq<Option<Group>>, active: seq<int>, k: nat)
    requires Ready(gs, active) && k < |gs| && Above(gs, active, k) == []
    ensures Done(gs, active, k + 1)
         == Done(gs, active, k) + [Boosted(TheActive(gs, active, k))] + Below(gs, active, k)
  {
    hide Present, InGroups, InGroup, Above, Below;
    var hs := BoostedActive(gs, active);
    assert hs[..k + 1] == hs[..k] + [hs[k]];
    InGroupsAppend(hs[..k], [hs[k]]);
    OneGroup(hs[k]);
    BoostedAround(gs, active, k);
  }

  lemma JoinPieces(a: seq<Interface>, b: seq<Interface>)
    requires AllPrintable(a) && AllPrintable(b)
    ensures AllPrintable(a + b)
    ensures Flatten(PiecesOf(a + b)) == Flatten(PiecesOf(a)) + Flatten(PiecesOf(b))
  {
    hide Flatten, PiecesOf, Printable;
    assert AllPrintable(a + b);
    SplitPieces(a, b);
  }

  /** Before turn `k` of an aligned walk the numbers below `k` are done and the rest is as printed. */
  lemma {:induction false} WalkSoFar(header: Bytes, gs: seq<Option<Group>>, active: seq<int>, k: nat)
    requires Ready(gs, active) && k < |gs| && Sized(InGroups(gs)) && |header| == 9 && Aligned(gs, active)
    ensures AllPrintable(Done(gs, active, k))
    ensures var b, p := header + Flatten(PiecesOf(InGroups(gs))), PrintOffset(gs, active, k);
            var done := header + Flatten(PiecesOf(Done(gs, active, k)));
            p <= |b| && |done| == p && WalkState(b, gs, active, k) == Some((done + b[p..], p))
    decreases k
  {
    hide Flatten, PiecesOf, Pieces, InGroups, Printable, Boosted, InterfaceLength, WalkState, PrintOffset, Aligned,
         Done, Above, Below;
    var b := header + Flatten(PiecesOf(InGroups(gs)));
    AlignedLists(gs, active);
    AlignedAgrees(header, gs, active, k + 1);
    var c := AheadIsPrinted(header, gs, active, k);
    if k == 0 {
      NothingDone(gs, active);
      NoPieces();
      FirstOffset(gs, active);
      WalkStarts(b, gs, active);
      assert header + [] == header && header + b[9..] == b;
    } else {
      var i := TheActive(gs, active, k - 1);
      WalkSoFar(header, gs, active, k - 1);
      var p := PrintOffset(gs, active, k - 1);
      var done := header + Flatten(PiecesOf(Done(gs, active, k - 1)));
      assert (done + b[p..])[p..] == b[p..] && (done + b[p..])[..p] == done;
      WalkTurn(header, gs, active, k - 1, done + b[p..]);
      NextOffset(gs, active, k - 1);
      NoPieces();
      DoneOne(gs, active, k - 1);
      assert Done(gs, active, k - 1) + [Boosted(i)] + [] == Done(gs, active, k - 1) + [Boosted(i)];
      BytesOfOne(Boosted(i));
      JoinPieces(Done(gs, active, k - 1), [Boosted(i)]);
      assert header + (Flatten(PiecesOf(Done(gs, active, k - 1))) + Flatten(Pieces(Boosted(i))))
          == done + Flatten(Pieces(Boosted(i)));
    }
  }

  lemma NothingDone(gs: seq<Option<Group>>, active: seq<int>)
    requires Ready(gs, active)
    ensures Done(gs, active, 0) == []
  {
    assert BoostedActive(gs, active)[..0] == [];
  }

  lemma LastLater(gs: seq<Option<Group>>, active: seq<int>)
    requires Ready(gs, active) && gs != []
    ensures Later(gs, active, |gs| - 1) == Below(gs, active, |gs| - 1)
    ensures Done(gs, active, |gs|) == InGroups(BoostedActive(gs, active))
  {
    hide Below;
    assert gs[|gs|..] == [] && InGroups(gs[|gs|..]) == [];
    assert BoostedActive(gs, active)[..|gs|] == BoostedActive(gs, active);
  }

  /**
   Where they agree, the walk turns the printed bytes of a configuration into the printed bytes of the same
   configuration with new intervals in its active interfaces: each of their endpoints is visited exactly once
   at the offset the printer gave it, and nothing but its interval byte changes.
   */
  lemma WalkIsRight(header: Bytes, gs: seq<Option<Group>>, active: seq<int>)
    requires Ready(gs, active) && Sized(InGroups(gs)) && |header| == 9 && Aligned(gs, active)
    ensures AllPrintable(InGroups(BoostedActive(gs, active)))
    ensures var r := WalkState(header + Flatten(PiecesOf(InGroups(gs))), gs, active, |gs|);
            r.Some? && r.value.0 == header + Flatten(PiecesOf(InGroups(BoostedActive(gs, active))))
  {
    var b := header + Flatten(PiecesOf(InGroups(gs)));
    if gs == [] {
      assert BoostedActive(gs, active) == [];
      WalkStarts(b, gs, active);
    } else {
      hide Flatten, PiecesOf, InGroups, Printable, WalkState, Aligned, Sized, Done, BoostedActive;
      LastTurn(header, gs, active);
      LastLater(gs, active);
    }
  }

  lemma LastTurn(header: Bytes, gs: seq<Option<Group>>, active: seq<int>)
    requires Ready(gs, active) && gs != [] && Sized(InGroups(gs)) && |header| == 9 && Aligned(gs, active)
    ensures AllPrintable(Done(gs, active, |gs|))
    ensures var r := WalkState(header + Flatten(PiecesOf(InGroups(gs))), gs, active, |gs|);
            r.Some? && r.value.0 == header + Flatten(PiecesOf(Done(gs, active, |gs|)))
  {
    hide Flatten, PiecesOf, Pieces, InGroups, Printable, Boosted, InterfaceLength, WalkState, PrintOffset, Aligned,
         Done, Above, Below;
    var b, k := header + Flatten(PiecesOf(InGroups(gs))), |gs| - 1;
    var i, p := TheActive(gs, active, k), PrintOffset(gs, active, k);
    AlignedLists(gs, active);
    WalkSoFar(header, gs, active, k);
    var ds := Done(gs, active, k);
    var done := header + Flatten(PiecesOf(ds));
    assert (done + b[p..])[p..] == b[p..] && (done + b[p..])[..p] == done;
    WalkTurn(header, gs, active, k, done + b[p..]);
    DoneOne(gs, active, k);
    LastLater(gs, active);
    ThreeParts(header, ds, Boosted(i), Below(gs, active, k));
  }

  lemma ThreeParts(header: Bytes, a: seq<Interface>, i: Interface, b: seq<Interface>)
    requires AllPrintable(a) && Printable(i) && AllPrintable(b)
    ensures AllPrintable(a + [i] + b)
    ensures header + Flatten(PiecesOf(a + [i] + b))
         == (header + Flatten(PiecesOf(a))) + Flatten(Pieces(i)) + Flatten(PiecesOf(b))
  {
    hide Flatten, PiecesOf, Pieces, Printable;
    BytesOfOne(i);
    JoinPieces(a, [i]);
    JoinPieces(a + [i], b);
  }

  // ----- Where they do not agree -----

  /** An interface with one bulk endpoint that is polled every 10 frames. */
  function Bulk(number: byte, alternate: byte): (i: Interface)
    ensures Walkable(i) && Printable(i) && Skip(i) == 9 && i.NumEndpoints() == 1
  {
    Interface([9, USB_DT_INTERFACE, number, alternate, 1, 0, 0, 0, 0], None, [],
              [Some([7, USB_DT_ENDPOINT, 0x81, 2, 8, 0, 10])])
  }

  /** Interface 0 with two alternates, of which the first is active, and interface 1. */
  function TwoAlternates(): seq<Option<Group>> {
    [Some(Group(0, [Some(Bulk(0, 0)), Some(Bulk(0, 1))])), Some(Group(1, [Some(Bulk(1, 0))]))]
  }

  lemma TwoAlternatesPrinted()
    ensures InGroups(TwoAlternates()) == [Bulk(0, 0)] + [Bulk(0, 1)] + [Bulk(1, 0)]
    ensures Ready(TwoAlternates(), [0, 0]) && Sized(InGroups(TwoAlternates())) && !Aligned(TwoAlternates(), [0, 0])
  {
    hide Bulk, Walkable;
    var gs := TwoAlternates();
    var xs := [Some(Bulk(0, 0)), Some(Bulk(0, 1))];
    assert gs == [gs[0]] + [gs[1]];
    InGroupsAppend([gs[0]], [gs[1]]);
    OneGroup(gs[0]);
    OneGroup(gs[1]);
    assert xs == [xs[0]] + [xs[1]];
    PresentAppend([xs[0]], [xs[1]]);
    PresentOne(xs[0]);
    PresentOne(xs[1]);
    PresentOne(Some(Bulk(1, 0)));
    assert xs[1..][0].Some?;
    BulkHasRoom(0, 0);
    BulkHasRoom(0, 1);
    BulkHasRoom(1, 0);
  }

  lemma BulkHasRoom(number: byte, alternate: byte)
    ensures Bulk(number, alternate).desc[0] == 9
  {}

  /**
   The turn of interface 1 falls on the second alternate of interface 0: that one is rewritten, interface 1 is
   not.
   */
  lemma WrongInterfaceRewritten(header: Bytes)
    requires |header| == 9
    ensures var gs := TwoAlternates();
            && AllPrintable(InGroups(gs))
            && var r := WalkState(header + Flatten(PiecesOf(InGroups(gs))), gs, [0, 0], 2);
               r.Some? && r.value.0 == header + Flatten(Pieces(Boosted(Bulk(0, 0))))
                                       + Flatten(Pieces(Boosted(Bulk(0, 1)))) + Flatten(Pieces(Bulk(1, 0)))
    ensures Boosted(Bulk(0, 1)) != Bulk(0, 1) && Boosted(Bulk(1, 0)) != Bulk(1, 0)
  {
    hide Flatten, Pieces, PiecesOf, Bulk, Boosted, WalkState, InGroups;
    var gs := TwoAlternates();
    var a, b, c := Flatten(Pieces(Bulk(0, 0))), Flatten(Pieces(Bulk(0, 1))), Flatten(Pieces(Bulk(1, 0)));
    TwoAlternatesBytes();
    assert header + (a + b + c) == header + a + b + c;
    WrongTurn(header, gs, [0, 0], Bulk(0, 0), Bulk(0, 1), Bulk(1, 0), c);
    BulkIsBoosted(0, 1);
    BulkIsBoosted(1, 0);
  }

  /** The second turn is for `i`, but the pointer is at `hit`, which takes the same steps. */
  lemma WrongTurn(header: Bytes, gs: seq<Option<Group>>, active: seq<int>, first: Interface, hit: Interface,
                  i: Interface, rest: Bytes)
    requires |header| == 9 && |gs| == |active| == 2
    requires ActiveOf(gs[0], active[0]) == Some(first) && ActiveOf(gs[1], active[1]) == Some(i)
    requires Walkable(first) && Printable(first) && Walkable(hit) && Printable(hit)
    requires Skip(hit) == Skip(i) && hit.NumEndpoints() == i.NumEndpoints()
    ensures Printable(Boosted(first)) && Printable(Boosted(hit))
    ensures var r := WalkState(header + Flatten(Pieces(first)) + Flatten(Pieces(hit)) + rest, gs, active, 2);
            r.Some? && r.value.0 ==
              header + Flatten(Pieces(Boosted(first))) + Flatten(Pieces(Boosted(hit))) + rest
  {
    hide Flatten, Pieces, Boosted, WalkEndpointBytes, Walkable, Printable, Skip, ActiveOf;
    var a, b := Flatten(Pieces(first)), Flatten(Pieces(hit));
    var p := header + a + b + rest;
    assert p == header + a + (b + rest);
    InterfaceWalked(first, header, b + rest);
    var x := header + Flatten(Pieces(Boosted(first)));
    WalkStarts(p, gs, active);
    assert WalkState(p, gs, active, 1) == Some((x + (b + rest), |x|));
    assert x + (b + rest) == x + b + rest;
    InterfaceWalked(hit, x, rest);
  }

  lemma TwoAlternatesBytes()
    ensures AllPrintable(InGroups(TwoAlternates()))
    ensures Flatten(PiecesOf(InGroups(TwoAlternates())))
         == Flatten(Pieces(Bulk(0, 0))) + Flatten(Pieces(Bulk(0, 1))) + Flatten(Pieces(Bulk(1, 0)))
  {
    hide Flatten, Pieces, PiecesOf, Bulk;
    TwoAlternatesPrinted();
    BytesOfOne(Bulk(0, 0));
    BytesOfOne(Bulk(0, 1));
    BytesOfOne(Bulk(1, 0));
    JoinPieces([Bulk(0, 0)], [Bulk(0, 1)]);
    JoinPieces([Bulk(0, 0)] + [Bulk(0, 1)], [Bulk(1, 0)]);
  }

  /** An interval of 10 becomes one of 7. */
  lemma BulkIsBoosted(number: byte, alternate: byte)
    ensures Boosted(Bulk(number, alternate)) != Bulk(number, alternate)
  {
    var i := Bulk(number, alternate);
    NewIntervalIsRight(10);
    assert Pow2(9) == 512;
    assert Boosted(i).endpoints[0].value[6] == NewInterval(10);
  }
}

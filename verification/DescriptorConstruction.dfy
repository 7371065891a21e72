/**
 The whole parsing constructor of Configuration: after the parse loop it chooses the active alternate of
 every interface number below bNumInterfaces, without looking whether there is a group for it.
 */
module DescriptorConstruction {
  import opened Common
  import opened Records
  import opened DescriptorTree
  import opened DescriptorBuild
  import opened DescriptorRoundTrip
  import opened DescriptorNormalForm

  /** The device's replies to GET_INTERFACE by interface number; None is a negative result. */
  type Answers = byte -> Option<byte>

  datatype Choice = Chosen(active: seq<byte>) | NullGroup(number: byte) | Refused(number: byte)

  /** The second loop, from interface number `i` on. */
  function Choose(gs: seq<Option<Group>>, answers: Answers, i: nat): Choice
    requires i <= |gs| <= 255
    decreases |gs| - i
  {
    if i == |gs| then Chosen([])
    else if gs[i] == None then NullGroup(i)
    else if |gs[i].value.alternates| != 1 && answers(i) == None then Refused(i)
    else
      var active := if |gs[i].value.alternates| == 1 then 0 else answers(i).value;
      match Choose(gs, answers, i + 1)
      case Chosen(rest) => Chosen([active] + rest)
      case NullGroup(n) => NullGroup(n)
      case Refused(n) => Refused(n)
  }

  /** How the constructor ends: with a tree, by dereferencing NULL for a number without group, or in `exit(1)`. */
  datatype Outcome = Built(tree: Tree, active: seq<byte>) | NullDereference(number: byte) | ExitOne(number: byte)

  function Settled(t: Tree, c: Choice): Outcome {
    match c
    case Chosen(active) => Built(t, active)
    case NullGroup(n) => NullDereference(n)
    case Refused(n) => ExitOne(n)
  }

  function Settle(t: Tree, answers: Answers): Outcome
    requires |t.groups| <= 255
  {
    Settled(t, Choose(t.groups, answers, 0))
  }

  function Construct(b: Bytes, answers: Answers): Outcome
    requires ParsableBytes(b)
  {
    Settle(Parse(b), answers)
  }

  // ----- When it succeeds -----

  predicate Complete(gs: seq<Option<Group>>) {
    forall n :: 0 <= n < |gs| ==> gs[n].Some?
  }

  /** The device answers wherever it is asked. */
  predicate Answered(gs: seq<Option<Group>>, answers: Answers) {
    forall n :: 0 <= n < |gs| && n < 0x100 && gs[n].Some? && |gs[n].value.alternates| != 1 ==> answers(n).Some?
  }

  predicate FirstMissing(gs: seq<Option<Group>>, n: nat) {
    n < |gs| && gs[n] == None && forall k :: 0 <= k < n ==> gs[k].Some?
  }

  lemma {:induction false} ChooseExactly(gs: seq<Option<Group>>, answers: Answers, i: nat)
    requires i <= |gs| <= 255 && Answered(gs, answers) && forall k :: 0 <= k < i ==> gs[k].Some?
    ensures Choose(gs, answers, i).Chosen? <==> Complete(gs)
    ensures !Complete(gs) ==> Choose(gs, answers, i).NullGroup? && FirstMissing(gs, Choose(gs, answers, i).number)
    ensures var c := Choose(gs, answers, i);
            c.Chosen? ==>
              |c.active| == |gs| - i
              && forall k :: i <= k < |gs| ==>
                   c.active[k - i] == if |gs[k].value.alternates| == 1 then 0 else answers(k).value
    decreases |gs| - i
  {
    if i < |gs| && gs[i].Some? {
      ChooseExactly(gs, answers, i + 1);
    }
  }

  lemma {:induction false} ChosenOnlyIfAnswered(gs: seq<Option<Group>>, answers: Answers, i: nat)
    requires i <= |gs| <= 255 && Choose(gs, answers, i).Chosen?
    ensures forall n :: i <= n < |gs| ==> gs[n].Some? && (|gs[n].value.alternates| == 1 || answers(n).Some?)
    decreases |gs| - i
  {
    if i < |gs| {
      ChosenOnlyIfAnswered(gs, answers, i + 1);
    }
  }

  /**
   The second loop comes to its end if and only if no group is missing and the device answers wherever it is
   asked.
   */
  lemma ChosenExactly(gs: seq<Option<Group>>, answers: Answers)
    requires |gs| <= 255
    ensures Choose(gs, answers, 0).Chosen? <==> Complete(gs) && Answered(gs, answers)
  {
    if Answered(gs, answers) {
      ChooseExactly(gs, answers, 0);
    }
    if Choose(gs, answers, 0).Chosen? {
      ChosenOnlyIfAnswered(gs, answers, 0);
    }
  }

  /** The loop when the alternates `before` have been chosen already. */
  function Preceded(before: seq<byte>, c: Choice): Choice {
    if c.Chosen? then Chosen(before + c.active) else c
  }

  lemma NothingPreceded(c: Choice)
    ensures Preceded([], c) == c
  {
    assert c.Chosen? ==> [] + c.active == c.active;
  }

  lemma AllPreceded(gs: seq<Option<Group>>, answers: Answers, before: seq<byte>)
    requires |before| == |gs| <= 255
    ensures Preceded(before, Choose(gs, answers, |before|)) == Chosen(before)
  {
    assert before + [] == before;
  }

  lemma ChooseOne(gs: seq<Option<Group>>, answers: Answers, before: seq<byte>, active: byte)
    requires |before| < |gs| <= 255 && gs[|before|].Some?
    requires |gs[|before|].value.alternates| == 1 || answers(|before|).Some?
    requires active == if |gs[|before|].value.alternates| == 1 then 0 else answers(|before|).value
    ensures Preceded(before, Choose(gs, answers, |before|))
         == Preceded(before + [active], Choose(gs, answers, |before| + 1))
  {
    var rest := Choose(gs, answers, |before| + 1);
    if rest.Chosen? {
      assert before + ([active] + rest.active) == before + [active] + rest.active;
    }
  }

  // ----- The numbers of the input -----

  /** `n` is the number of an interface record. */
  predicate Numbered(rs: seq<Record>, n: nat) {
    exists k :: 0 <= k < |rs| && IsNumbered(rs[k], n)
  }

  predicate IsNumbered(r: Record, n: nat) {
    r[1] == 4 && |r| > 2 && r[2] == n
  }

  predicate HeadNumbered(ss: seq<Segment>, n: nat) {
    exists j :: 0 <= j < |ss| && IsNumbered(ss[j].head, n)
  }

  lemma {:induction false} NumbersAreHeads(rs: seq<Record>, n: nat)
    requires HasInterface(rs)
    ensures Numbered(rs, n) <==> HeadNumbered(Segments(rs), n)
    decreases |rs|
  {
    hide Segments, HasInterface;
    if rs == [] {
      NoSegments();
    } else {
      var s, rest := SplitSegment(rs);
      NumbersAreHeads(rest, n);
      NumberedInFirst(s, rest, n);
      HeadInFirst(s, Segments(rest), n);
    }
  }

  lemma NumberedInFirst(s: Segment, rest: seq<Record>, n: nat)
    requires forall k :: 0 <= k < |s.lead| ==> !IsInterface(s.lead[k])
    requires forall k :: 0 <= k < |s.body| ==> !IsInterface(s.body[k])
    ensures Numbered(s.All() + rest, n) <==> IsNumbered(s.head, n) || Numbered(rest, n)
  {
    var rs := s.All() + rest;
    if Numbered(rest, n) {
      var k :| 0 <= k < |rest| && IsNumbered(rest[k], n);
      assert rs[|s.All()| + k] == rest[k];
    }
    if IsNumbered(s.head, n) {
      assert rs[|s.lead|] == s.head;
    }
    if Numbered(rs, n) {
      var k :| 0 <= k < |rs| && IsNumbered(rs[k], n);
      if k >= |s.All()| {
        assert rs[k] == rest[k - |s.All()|];
      }
    }
  }

  lemma HeadInFirst(s: Segment, ss: seq<Segment>, n: nat)
    ensures HeadNumbered([s] + ss, n) <==> IsNumbered(s.head, n) || HeadNumbered(ss, n)
  {
    var all := [s] + ss;
    if IsNumbered(s.head, n) {
      assert all[0] == s;
    }
    if HeadNumbered(ss, n) {
      var j :| 0 <= j < |ss| && IsNumbered(ss[j].head, n);
      assert all[j + 1] == ss[j];
    }
    if HeadNumbered(all, n) {
      var j :| 0 <= j < |all| && IsNumbered(all[j].head, n);
      if j > 0 {
        assert all[j] == ss[j - 1];
      }
    }
  }

  lemma {:induction false} GroupsAdded(gs: seq<Option<Group>>, its: seq<Interface>, n: nat)
    requires n < |gs| && forall k :: 0 <= k < |its| ==> its[k].Number() < |gs|
    ensures AddAll(gs, its)[n].Some? <==> gs[n].Some? || exists k :: 0 <= k < |its| && its[k].Number() == n
  {
    if its != [] {
      var init := its[..|its| - 1];
      GroupsAdded(gs, init, n);
      assert forall k :: 0 <= k < |init| ==> init[k] == its[k];
    }
  }

  /** A number has a group exactly if some interface record carries it. */
  lemma GroupPresent(desc: Desc9, rs: seq<Record>, n: nat)
    requires ParsableBlock(desc, rs) && n < desc[4]
    ensures ParseRecords(desc, rs).groups[n].Some? <==> Numbered(rs, n)
  {
    hide Segments, HasInterface, AddAll;
    var ss := Segments(rs);
    PlacedInterfaces(ss, desc[4]);
    GroupsAdded(Blank(desc[4]), MakeInterfaces(ss), n);
    NumbersAreHeads(rs, n);
    HeadsAreInterfaces(rs);
    var its := MakeInterfaces(ss);
    assert forall j :: 0 <= j < |ss| ==> (its[j].Number() == n <==> IsNumbered(ss[j].head, n));
    if HeadNumbered(ss, n) {
      var j :| 0 <= j < |ss| && IsNumbered(ss[j].head, n);
      assert its[j].Number() == n;
    }
  }

  lemma {:induction false} HeadsAreInterfaces(rs: seq<Record>)
    requires HasInterface(rs)
    ensures forall j :: 0 <= j < |Segments(rs)| ==> IsInterface(Segments(rs)[j].head)
    decreases |rs|
  {
    hide Segments, HasInterface;
    if rs == [] {
      NoSegments();
    } else {
      var s, rest := SplitSegment(rs);
      HeadsAreInterfaces(rest);
    }
  }

  predicate AllNumbered(desc: Desc9, rs: seq<Record>) {
    forall n :: 0 <= n < desc[4] as int ==> Numbered(rs, n)
  }

  /**
   On every block the parser can read, with a device that answers: the constructor succeeds if and only if
   every interface number below bNumInterfaces is carried by some interface record. Otherwise it
   dereferences NULL at the first number that is not.
   */
  lemma BuiltExactly(desc: Desc9, rs: seq<Record>, answers: Answers)
    requires ParsableBlock(desc, rs) && Answered(ParseRecords(desc, rs).groups, answers)
    ensures var t, o := ParseRecords(desc, rs), Settle(ParseRecords(desc, rs), answers);
            && (o.Built? <==> AllNumbered(desc, rs))
            && (o.Built? ==> o.tree == t && |o.active| == desc[4] as int)
            && (!AllNumbered(desc, rs) ==>
                  && o.NullDereference? && o.number < desc[4] && !Numbered(rs, o.number)
                  && forall n :: 0 <= n < o.number as int ==> Numbered(rs, n))
  {
    hide ParseRecords, ParsableBlock, Numbered, Choose;
    var gs := ParseRecords(desc, rs).groups;
    AsManyGroups(desc, rs);
    forall n | 0 <= n < desc[4] as int
      ensures gs[n].Some? <==> Numbered(rs, n)
    {
      GroupPresent(desc, rs, n);
    }
    ChooseExactly(gs, answers, 0);
  }

  lemma AsManyGroups(desc: Desc9, rs: seq<Record>)
    requires ParsableBlock(desc, rs)
    ensures |ParseRecords(desc, rs).groups| == desc[4] as int
  {}

  /** A configuration that announces one interface and has none: whatever the device answers, NULL is dereferenced. */
  lemma NoInterfaceCrashes(answers: Answers)
    ensures var b := [9, 2, 9, 0, 1, 1, 0, 0x80, 50];
            ParsableBytes(b) && Construct(b, answers) == NullDereference(0)
  {
    var b: Bytes := [9, 2, 9, 0, 1, 1, 0, 0x80, 50];
    assert b[9..] == [] && b[..9] == b;
    NoSegments();
  }

  // ----- Parse after print -----

  /**
   Parse after print. The printed bytes of every well-formed tree, with any alternates missing, are
   constructed into the same tree (the same groups, alternates, HID descriptors, generic descriptors and
   endpoints) if and only if no whole interface is missing; then an only alternate is the active one, and
   otherwise the one the device names. If an interface is missing, NULL is dereferenced.
   */
  lemma ParseAfterPrint(t: Tree, answers: Answers)
    requires WellFormedTree(t) && Answered(t.groups, answers)
    ensures PrintableTree(t) && ParsableBytes(Print(t))
    ensures var o := Construct(Print(t), answers);
            && (o.Built? && o.tree == t <==> Complete(t.groups))
            && (!Complete(t.groups) ==> o.NullDereference? && FirstMissing(t.groups, o.number))
            && (o.Built? ==> forall n :: 0 <= n < |t.groups| ==>
                  n < |o.active| && o.active[n] == if |t.groups[n].value.alternates| == 1 then 0 else answers(n).value)
  {
    hide WellFormedInterface, Canonical, Keyed, InGroups, ParsableBytes, Parse, Choose;
    LoopAfterPrint(t);
    ChooseExactly(t.groups, answers, 0);
  }

  // ----- Print after parse -----

  /**
   Print after parse is a normal form. For every well-formed block in which every interface number below
   bNumInterfaces occurs, the constructor succeeds; the records of the tree it builds, as printed, are the
   input records rearranged, with the same total length; and constructing from what was printed gives the
   same tree with the same active alternates.
   */
  lemma PrintAfterParse(desc: Desc9, rs: seq<Record>, answers: Answers)
    requires WellFormedBlock(desc, rs) && AllNumbered(desc, rs)
    requires Answered(ParseRecords(desc, rs).groups, answers)
    ensures ParsableBytes(desc + Flatten(rs))
    ensures var o, t := Construct(desc + Flatten(rs), answers), ParseRecords(desc, rs);
            && o.Built? && o.tree == t && PrintableTree(t)
            && Print(t) == desc + Flatten(PiecesOf(InGroups(t.groups)))
            && Bag(PiecesOf(InGroups(t.groups))) == Bag(rs)
            && |Print(t)| == |desc| + |Flatten(rs)|
            && ParsableBytes(Print(t)) && Construct(Print(t), answers) == o
  {
    hide ParsableBlock, ParseRecords, AllNumbered, Settle, InGroups, Bag, Flatten, PiecesOf, PrintableTree, Print;
    SplitFlatten(rs);
    assert (desc + Flatten(rs))[..9] == desc && (desc + Flatten(rs))[9..] == Flatten(rs);
    BuiltExactly(desc, rs, answers);
    LoopNormalForm(desc, rs);
  }
}

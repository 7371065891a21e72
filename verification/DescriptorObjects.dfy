/** InterfaceGroup and Configuration as objects that own their tables. */
module DescriptorObjects {
  import opened Common
  import opened Records
  import opened DescriptorTree
  import opened DescriptorNormalForm
  import opened DescriptorConstruction
  import opened DescriptorIo
  import opened DescriptorValidity

  // ----- Interface: the methods with loops -----

  method EndpointsLengthOf(endpoints: seq<Option<Desc7>>) returns (total: nat)
    ensures total == EndpointsLength(endpoints)
  {
    total := 0;
    for k := 0 to |endpoints|
      invariant total + EndpointsLength(endpoints[k..]) == EndpointsLength(endpoints)
    {
      assert endpoints[k..][1..] == endpoints[k + 1..];
      if endpoints[k].Some? {
        total := total + endpoints[k].value[0];
      }
    }
  }

  /** `Interface::get_full_descriptor_length`. */
  method LengthOf(i: Interface) returns (total: nat)
    ensures total == InterfaceLength(i)
  {
    total := i.desc[0];
    if i.hid.Some? {
      total := total + |i.hid.value|;
    }
    for k := 0 to |i.generics|
      invariant total + TotalLength(i.generics[k..]) + EndpointsLength(i.endpoints) == InterfaceLength(i)
    {
      assert i.generics[k..][1..] == i.generics[k + 1..];
      total := total + i.generics[k][0];
    }
    var rest := EndpointsLengthOf(i.endpoints);
    total := total + rest;
  }

  /** `Interface::is_defined`: the first defect it meets, or none. */
  method CheckInterface(i: Interface, configId: byte, interfaceNum: byte) returns (e: DefinitionError)
    requires |i.endpoints| == i.NumEndpoints()
    ensures e.error == NoError <==> DefinedInterface(i)
    ensures e.error != NoError ==> InterfaceFault(i, configId, interfaceNum, e)
  {
    if i.desc[0] != 9 {
      return DefinitionError(InvalidDescriptor, 1, InterfaceObject, configId, interfaceNum, i.Alternate(), 0);
    }
    if i.desc[1] != USB_DT_INTERFACE {
      return DefinitionError(InvalidDescriptor, 2, InterfaceObject, configId, interfaceNum, i.Alternate(), 0);
    }
    for k := 0 to |i.endpoints|
      invariant forall j :: 0 <= j < k ==> i.endpoints[j].Some? && DefinedEndpoint(i.endpoints[j].value)
    {
      if i.endpoints[k] == None {
        return DefinitionError(NullObject, 0, EndpointObject, configId, interfaceNum, i.Alternate(), k);
      }
      EndpointErrorIsRight(i.endpoints[k].value, configId, interfaceNum, i.Alternate());
      e := EndpointError(i.endpoints[k].value, configId, interfaceNum, i.Alternate());
      if e.error != NoError {
        return;
      }
    }
    e := OK;
  }

  lemma FirstInterface(i: Interface, rest: seq<Interface>)
    requires Printable(i) && forall k :: 0 <= k < |rest| ==> Printable(rest[k])
    ensures forall k :: 0 <= k < |[i] + rest| ==> Printable(([i] + rest)[k])
    ensures Flatten(PiecesOf([i] + rest)) == Flatten(Pieces(i)) + Flatten(PiecesOf(rest))
  {
    assert ([i] + rest)[1..] == rest;
    FlattenAppend(Pieces(i), PiecesOf(rest));
  }

  // ----- InterfaceGroup -----

  class InterfaceGroup {
    var number: byte
    var interfaces: seq<Option<Interface>>
    var activeAlternateIndex: int

    ghost predicate Valid()
      reads this
    {
      && |interfaces| <= 255
      && forall a :: 0 <= a < |interfaces| && interfaces[a].Some? ==>
           |interfaces[a].value.endpoints| == interfaces[a].value.NumEndpoints()
    }

    ghost function View(): Group
      reads this
    {
      Group(number, interfaces)
    }

    constructor (number: byte)
      ensures Valid() && View() == Group(number, []) && activeAlternateIndex == -1
    {
      this.number, interfaces, activeAlternateIndex := number, [], -1;
    }

    /** `add_interface`: the table grows to reach the alternate setting, or the old entry is replaced. */
    method AddInterface(i: Interface)
      requires Valid() && i.Alternate() <= 254 && |i.endpoints| == i.NumEndpoints()
      modifies `interfaces
      ensures Valid() && View() == AddToGroup(old(View()), i)
    {
      var alternate := i.Alternate();
      if alternate >= |interfaces| {
        interfaces := interfaces + Blank(alternate + 1 - |interfaces|);
      }
      interfaces := interfaces[alternate := Some(i)];
    }

    method GetFullDescriptorLength() returns (total: nat)
      ensures total == InterfacesLength(InGroup(Some(View())))
    {
      total := 0;
      for k := 0 to |interfaces|
        invariant total + InterfacesLength(Present(interfaces[k..])) == InterfacesLength(Present(interfaces))
      {
        assert interfaces[k..][1..] == interfaces[k + 1..];
        if interfaces[k].Some? {
          var n := LengthOf(interfaces[k].value);
          assert Present(interfaces[k..])[1..] == Present(interfaces[k + 1..]);
          total := total + n;
        } else {
          assert Present(interfaces[k..]) == Present(interfaces[k + 1..]);
        }
      }
    }

    /** `get_full_descriptor`: every alternate that exists, in order. */
    method GetFullDescriptor(buf: array<byte>, p: nat) returns (q: nat)
      requires forall k :: 0 <= k < |Present(interfaces)| ==> Printable(Present(interfaces)[k])
      requires p + |Flatten(PiecesOf(Present(interfaces)))| <= buf.Length
      modifies buf
      ensures var bytes := Flatten(PiecesOf(Present(interfaces)));
              q == p + |bytes| && Wrote(old(buf[..]), buf[..], p, bytes)
    {
      hide Wrote, Printable, Pieces, Flatten;
      q := p;
      ghost var all := Flatten(PiecesOf(Present(interfaces)));
      ghost var written: Bytes := [];
      WroteNothing(buf[..], p);
      assert interfaces[0..] == interfaces;
      for k := 0 to |interfaces|
        invariant forall j :: 0 <= j < |Present(interfaces[k..])| ==> Printable(Present(interfaces[k..])[j])
        invariant written + Flatten(PiecesOf(Present(interfaces[k..]))) == all
        invariant q == p + |written| && Wrote(old(buf[..]), buf[..], p, written)
      {
        ghost var left, rest := Present(interfaces[k..]), Present(interfaces[k + 1..]);
        assert interfaces[k..][1..] == interfaces[k + 1..];
        if interfaces[k].Some? {
          ghost var i := interfaces[k].value;
          ghost var before := buf[..];
          assert left == [i] + rest && left[0] == i;
          FirstInterface(i, rest);
          q := PrintInterface(interfaces[k].value, buf, q);
          WroteBoth(old(buf[..]), before, buf[..], p, written, Flatten(Pieces(i)));
          written := written + Flatten(Pieces(i));
        } else {
          assert left == rest;
        }
      }
      assert interfaces[|interfaces|..] == [];
      assert written == all by { FlattenNone(); }
    }

    /** `is_defined`. */
    method IsDefined(configId: byte) returns (e: DefinitionError)
      requires Valid()
      ensures e.error == NoError <==> DefinedGroup(View())
      ensures e.error != NoError ==> GroupFault(View(), configId, e)
    {
      if |interfaces| == 0 {
        return DefinitionError(NullObject, 0, InterfaceObject, configId, number, 0, 0);
      }
      for k := 0 to |interfaces|
        invariant forall a :: 0 <= a < k ==>
          interfaces[a].Some? && DefinedInterface(interfaces[a].value) && Key(interfaces[a].value) == (number, a)
      {
        e := CheckAlternate(configId, k);
        if e.error != NoError {
          assert AlternateFault(View(), configId, k, e);
          return;
        }
      }
      e := OK;
    }

    /** The body of that loop. */
    method CheckAlternate(configId: byte, k: byte) returns (e: DefinitionError)
      requires Valid() && k < |interfaces|
      ensures e.error == NoError <==>
                interfaces[k].Some? && DefinedInterface(interfaces[k].value) && Key(interfaces[k].value) == (number, k)
      ensures e.error != NoError ==> AlternateFault(View(), configId, k, e)
    {
      if interfaces[k] == None {
        return DefinitionError(NullObject, 0, InterfaceObject, configId, number, k, 0);
      }
      var i := interfaces[k].value;
      if i.Number() != number {
        return DefinitionError(MisplacedIfNum, i.Alternate(), InterfaceObject, configId, number, k, 0);
      }
      if i.Alternate() != k {
        return DefinitionError(MisplacedObject, i.Alternate(), InterfaceObject, configId, number, k, 0);
      }
      e := CheckInterface(i, configId, number);
    }
  }

  // ----- Configuration -----

  lemma AddAllSnoc(gs: seq<Option<Group>>, its: seq<Interface>, i: Interface)
    requires (forall k :: 0 <= k < |its| ==> its[k].Number() < |gs|) && i.Number() < |gs|
    ensures AddAll(gs, its + [i]) == AddInterface(AddAll(gs, its), i)
  {
    assert (its + [i])[..|its|] == its;
  }

  class Configuration {
    var descriptor: Desc9
    const interfaceGroups: array<InterfaceGroup?>

    ghost function Groups(): set<InterfaceGroup>
      reads this, interfaceGroups
    {
      set k | 0 <= k < interfaceGroups.Length && interfaceGroups[k] != null :: interfaceGroups[k]
    }

    ghost predicate Valid()
      reads this, interfaceGroups, Groups()
    {
      && interfaceGroups.Length == descriptor[4]
      && (forall k :: 0 <= k < interfaceGroups.Length && interfaceGroups[k] != null ==> interfaceGroups[k].Valid())
      && (forall j, k :: 0 <= j < k < interfaceGroups.Length && interfaceGroups[j] != null ==>
            interfaceGroups[j] != interfaceGroups[k])
    }

    ghost function GroupViews(): (gs: seq<Option<Group>>)
      reads this, interfaceGroups, Groups()
      ensures |gs| == interfaceGroups.Length
      ensures forall k :: 0 <= k < |gs| ==>
                gs[k] == if interfaceGroups[k] == null then None else Some(interfaceGroups[k].View())
    {
      seq(interfaceGroups.Length, k requires 0 <= k < interfaceGroups.Length reads this, interfaceGroups, Groups() =>
        if interfaceGroups[k] == null then None else Some(interfaceGroups[k].View()))
    }

    ghost function View(): Tree
      reads this, interfaceGroups, Groups()
    {
      Tree(descriptor, GroupViews())
    }

    /** The active alternate of each group; there is none while the index is negative. */
    ghost function Indices(): (active: seq<int>)
      reads this, interfaceGroups, Groups()
      ensures |active| == interfaceGroups.Length
      ensures forall k :: 0 <= k < |active| ==>
                active[k] == if interfaceGroups[k] == null then -1 else interfaceGroups[k].activeAlternateIndex
    {
      seq(interfaceGroups.Length, k requires 0 <= k < interfaceGroups.Length reads this, interfaceGroups, Groups() =>
        if interfaceGroups[k] == null then -1 else interfaceGroups[k].activeAlternateIndex)
    }

    /** `Configuration(device, descriptor)`: a configuration with no interfaces yet. */
    constructor (descriptor: Desc9)
      ensures Valid() && View() == Tree(descriptor, Blank(descriptor[4])) && Groups() == {}
      ensures fresh(interfaceGroups)
    {
      this.descriptor := descriptor;
      interfaceGroups := new InterfaceGroup?[descriptor[4]](_ => null);
    }

    method AddInterface(i: Interface)
      requires Valid() && i.Number() < descriptor[4] && i.Alternate() <= 254
      requires |i.endpoints| == i.NumEndpoints()
      modifies interfaceGroups, Groups()
      ensures Valid() && View() == Tree(old(descriptor), DescriptorTree.AddInterface(old(GroupViews()), i))
      ensures fresh(Groups() - old(Groups()))
    {
      var number := i.Number();
      if interfaceGroups[number] == null {
        interfaceGroups[number] := new InterfaceGroup(number);
      }
      interfaceGroups[number].AddInterface(i);
    }
  
    /** The parsing part of `Configuration(device, proxy, index)`, on the bytes the device returned. */
    constructor FromBytes(buf: Bytes)
      requires ParsableBytes(buf)
      ensures Valid() && View() == Parse(buf)
      ensures fresh(interfaceGroups) && fresh(Groups())
    {
      descriptor := buf[..9];
      interfaceGroups := new InterfaceGroup?[buf[4]](_ => null);
      new;
      assert GroupViews() == Blank(buf[4]);
      AddInterfaces(buf);
    }

    /** The parse loop: the cursor strictly advances and lands exactly on the end. */
    method AddInterfaces(buf: Bytes)
      requires ParsableBytes(buf) && descriptor == buf[..9]
      requires Valid() && GroupViews() == Blank(buf[4])
      modifies interfaceGroups, Groups()
      ensures Valid() && View() == Parse(buf)
      ensures fresh(Groups() - old(Groups()))
    {
      hide Parsable, AddAll, MakeInterfaces, Split, ParsedSoFar, BuiltFrom;
      var p := 9;
      ghost var rest, done := Split(buf[9..]).value, [];
      ParseStart(buf);
      while p < |buf|
        invariant ParsedSoFar(buf, p, rest, done)
        invariant Valid() && fresh(Groups() - old(Groups()))
        invariant GroupViews() == BuiltFrom(buf, p, rest, done)
        decreases |buf| - p
      {
        var i;
        i, p, rest, done := ParseNext(buf, p, rest, done);
        AddInterface(i);
      }
      LandsOnEnd(buf, p, rest, done);
      ParseEnd(buf, p, rest, done);
    }

    /** The rest of that constructor: the active alternate of every interface number. */
    method ChooseAlternates(answers: Answers) returns (choice: Choice)
      requires Valid()
      modifies Groups()`activeAlternateIndex
      ensures Valid() && View() == old(View())
      ensures choice == Choose(old(GroupViews()), answers, 0)
      ensures choice.Chosen? ==> |choice.active| == interfaceGroups.Length && Actives(choice.active)
    {
      hide Choose, Actives, Preceded;
      ghost var gs := GroupViews();
      NothingPreceded(Choose(gs, answers, 0));
      var chosen: seq<byte> := [];
      NoActives();
      for i := 0 to interfaceGroups.Length
        invariant Shows(gs) && |chosen| == i && Actives(chosen)
        invariant Choose(gs, answers, 0) == Preceded(chosen, Choose(gs, answers, i))
      {
        var stop, active := ChooseFor(chosen, gs, answers);
        if stop.Some? {
          assert GroupViews() == gs;
          return stop.value;
        }
        chosen := chosen + [active];
      }
      AllPreceded(gs, answers, chosen);
      assert GroupViews() == gs;
      choice := Chosen(chosen);
    }

    /** The groups from number 0 on have these active alternates. */
    ghost predicate Actives(active: seq<byte>)
      reads this, interfaceGroups, Groups()
    {
      && |active| <= interfaceGroups.Length
      && forall k :: 0 <= k < |active| ==>
           interfaceGroups[k] != null && interfaceGroups[k].activeAlternateIndex == active[k] as int
    }

    lemma NoActives()
      ensures Actives([])
    {}

    /** One turn of that loop: the active alternate of the next number, or how the constructor ends. */
    method ChooseFor(chosen: seq<byte>, ghost gs: seq<Option<Group>>, answers: Answers)
      returns (stop: Option<Choice>, active: byte)
      requires Valid() && Shows(gs) && |chosen| < interfaceGroups.Length && Actives(chosen)
      modifies Groups()`activeAlternateIndex
      ensures Shows(gs)
      ensures stop.Some? ==> Preceded(chosen, Choose(gs, answers, |chosen|)) == stop.value && !stop.value.Chosen?
      ensures stop == None ==>
                && Actives(chosen + [active])
                && Preceded(chosen, Choose(gs, answers, |chosen|))
                   == Preceded(chosen + [active], Choose(gs, answers, |chosen| + 1))
    {
      hide Choose;
      var i := |chosen|;
      ChooseStops(gs, answers, i);
      var group := interfaceGroups[i];
      active := 0;
      if group == null {
        return Some(NullGroup(i)), 0;
      }
      if |group.interfaces| != 1 {
        if answers(i) == None {
          return Some(Refused(i)), 0;
        }
        active := answers(i).value;
      }
      ChooseOne(gs, answers, chosen, active);
      group.activeAlternateIndex := active;
      stop := None;
    }

    /** The whole constructor; there is no configuration if it does not come to its end. */
    static method FromDevice(buf: Bytes, answers: Answers) returns (cfg: Configuration?, choice: Choice)
      requires ParsableBytes(buf)
      ensures Construct(buf, answers) == Settled(Parse(buf), choice)
      ensures cfg != null <==> choice.Chosen?
      ensures cfg != null ==> cfg.Valid() && cfg.View() == Parse(buf)
      ensures cfg != null ==> |choice.active| == cfg.interfaceGroups.Length && cfg.Actives(choice.active)
    {
      hide Choose;
      cfg := new Configuration.FromBytes(buf);
      choice := cfg.ChooseAlternates(answers);
      if !choice.Chosen? {
        cfg := null;
      }
    }

    /** What GroupViews says, for a snapshot of it. */
    ghost predicate Shows(gs: seq<Option<Group>>)
      reads this, interfaceGroups, Groups()
    {
      && |gs| == interfaceGroups.Length
      && forall k :: 0 <= k < |gs| ==>
           gs[k] == if interfaceGroups[k] == null then None else Some(interfaceGroups[k].View())
    }

    method GetFullDescriptorLength() returns (total: nat)
      requires Valid()
      ensures total == TreeLength(View())
    {
      hide InterfacesLength;
      ghost var gs := GroupViews();
      total := descriptor[0];
      assert gs[0..] == gs;
      for k := 0 to interfaceGroups.Length
        invariant Shows(gs) && total + InterfacesLength(InGroups(gs[k..])) == TreeLength(Tree(descriptor, gs))
      {
        assert gs[k..][1..] == gs[k + 1..];
        InterfacesLengthAppend(InGroup(gs[k]), InGroups(gs[k + 1..]));
        if interfaceGroups[k] != null {
          var n := interfaceGroups[k].GetFullDescriptorLength();
          total := total + n;
        } else {
          NoPieces();
        }
      }
      assert gs[|gs|..] == [] && GroupViews() == gs;
      NoPieces();
    }

    /** `get_full_descriptor` allocates exactly the announced length and fills it. */
    method GetFullDescriptor() returns (buf: array<byte>)
      requires Valid() && PrintableTree(View())
      ensures fresh(buf) && PrintableTree(View()) && buf[..] == Print(View())
    {
      hide InGroups, PiecesOf, Flatten, Printable, Wrote;
      ghost var t := View();
      var length := GetFullDescriptorLength();
      assert GroupViews() == t.groups;
      LengthIsPrinted(t);
      buf := new byte[length];
      ghost var blank := buf[..];
      var p := Put(buf, 0, Cut(descriptor));
      ghost var written := Cut(descriptor);
      assert t.groups[0..] == t.groups;
      for k := 0 to interfaceGroups.Length
        invariant Shows(t.groups) && p == |written| && buf.Length == |Print(t)| && Wrote(blank, buf[..], 0, written)
        invariant AllPrintable(InGroups(t.groups[k..]))
        invariant written + Flatten(PiecesOf(InGroups(t.groups[k..]))) == Print(t)
      {
        p, written := PrintGroup(k, t.groups, buf, p, blank, written);
      }
      assert t.groups[|t.groups|..] == [] && GroupViews() == t.groups;
      NoPieces();
      WroteAll(blank, buf[..], written);
    }

    /** The body of the printing loop. */
    method PrintGroup(k: nat, ghost gs: seq<Option<Group>>, buf: array<byte>, p: nat,
                      ghost blank: Bytes, ghost written: Bytes)
      returns (q: nat, ghost written': Bytes)
      requires Shows(gs) && k < |gs| && AllPrintable(InGroups(gs[k..]))
      requires p == |written| && Wrote(blank, buf[..], 0, written)
      requires |written| + |Flatten(PiecesOf(InGroups(gs[k..])))| <= buf.Length
      modifies buf
      ensures q == |written'| && Wrote(blank, buf[..], 0, written')
      ensures AllPrintable(InGroups(gs[k + 1..]))
      ensures written' + Flatten(PiecesOf(InGroups(gs[k + 1..]))) == written + Flatten(PiecesOf(InGroups(gs[k..])))
    {
      hide Flatten, PiecesOf, Pieces, Printable, Wrote, Present, InterfacesLength;
      q, written' := p, written;
      assert gs[k..][1..] == gs[k + 1..];
      ghost var first, rest := InGroup(gs[k]), InGroups(gs[k + 1..]);
      SplitPieces(first, rest);
      if interfaceGroups[k] != null {
        ghost var before := buf[..];
        q := interfaceGroups[k].GetFullDescriptor(buf, p);
        written' := written + Flatten(PiecesOf(first));
        WroteBoth(blank, before, buf[..], 0, written, Flatten(PiecesOf(first)));
      } else {
        NoPieces();
      }
    }

    /** `is_defined`. */
    method IsDefined(highSpeed: bool) returns (e: DefinitionError)
      requires Valid()
      ensures e.error == NoError <==> Defined(View(), highSpeed)
      ensures e.error != NoError ==> TreeFault(View(), highSpeed, e)
    {
      hide Defined, DefinedGroups, GroupsFault, TreeLength;
      ghost var t := View();
      DefinedByLengthFields(t, highSpeed);
      AttributesAreRight(descriptor[7]);
      var value := descriptor[5];
      var configId: byte := if highSpeed && value < 0x80 then value + 0x80 else value;
      var kind := if highSpeed then OsConfigObject else ConfigObject;
      var attributes := descriptor[7] as int;
      var length := GetFullDescriptorLength();
      assert GroupViews() == t.groups;
      if descriptor[0] != 9 {
        return DefinitionError(InvalidDescriptor, 1, kind, configId, 0, 0, 0);
      } else if descriptor[1] != (if highSpeed then USB_DT_OTHER_SPEED_CONFIG else USB_DT_CONFIG) {
        return DefinitionError(InvalidDescriptor, 2, kind, configId, 0, 0, 0);
      } else if (descriptor[3] as int) * 0x100 + descriptor[2] != length {
        return DefinitionError(InvalidDescriptor, 3, kind, configId, 0, 0, 0);
      } else if descriptor[4] == 0 {
        return DefinitionError(InvalidDescriptor, 5, kind, configId, 0, 0, 0);
      } else if attributes / 0x80 != 1 || attributes % 0x20 != 0 {
        return DefinitionError(InvalidDescriptor, 8, kind, configId, 0, 0, 0);
      }
      e := CheckGroups(t.groups, configId);
      assert GroupViews() == t.groups;
    }

    method CheckGroups(ghost gs: seq<Option<Group>>, configId: byte) returns (e: DefinitionError)
      requires Valid() && Shows(gs)
      ensures Shows(gs) && (e.error == NoError <==> DefinedGroups(gs))
      ensures e.error != NoError ==> GroupsFault(gs, configId, e)
    {
      hide DefinedGroup, GroupFault;
      for k := 0 to interfaceGroups.Length
        invariant Shows(gs)
        invariant forall n :: 0 <= n < k ==> gs[n].Some? && gs[n].value.number == n && DefinedGroup(gs[n].value)
      {
        var group := interfaceGroups[k];
        if group == null {
          return DefinitionError(NullObject, 0, GroupObject, configId, k, 0, 0);
        }
        if group.number != k {
          return DefinitionError(MisplacedObject, group.number, GroupObject, configId, k, 0, 0);
        }
        e := group.IsDefined(configId);
        if e.error != NoError {
          return;
        }
      }
      e := OK;
    }
  }

  lemma ChooseStops(gs: seq<Option<Group>>, answers: Answers, i: nat)
    requires i <= |gs| <= 255
    ensures i == |gs| ==> Choose(gs, answers, i) == Chosen([])
    ensures i < |gs| && gs[i] == None ==> Choose(gs, answers, i) == NullGroup(i)
    ensures i < |gs| && gs[i].Some? && |gs[i].value.alternates| != 1 && answers(i) == None ==>
              Choose(gs, answers, i) == Refused(i)
  {}

  predicate AllPrintable(its: seq<Interface>) {
    forall k :: 0 <= k < |its| ==> Printable(its[k])
  }

  lemma {:induction false} SplitPieces(a: seq<Interface>, b: seq<Interface>)
    requires AllPrintable(a + b)
    ensures AllPrintable(a) && AllPrintable(b)
    ensures Flatten(PiecesOf(a + b)) == Flatten(PiecesOf(a)) + Flatten(PiecesOf(b))
  {
    hide Pieces, Printable, Flatten;
    if a == [] {
      assert a + b == b;
      NoPieces();
    } else {
      assert a + b == [a[0]] + (a[1..] + b) && a == [a[0]] + a[1..];
      assert Printable((a + b)[0]) && forall k :: 0 <= k < |a[1..] + b| ==> (a[1..] + b)[k] == (a + b)[k + 1];
      SplitPieces(a[1..], b);
      FirstInterface(a[0], a[1..]);
      FirstInterface(a[0], a[1..] + b);
    }
  }

  lemma NoPieces()
    ensures Flatten(PiecesOf([])) == [] && InterfacesLength([]) == 0 && InGroups([]) == []
  {}

  lemma WroteAll(before: Bytes, after: Bytes, bytes: Bytes)
    requires Wrote(before, after, 0, bytes) && |before| == |bytes|
    ensures after == bytes
  {}

  lemma {:induction false} InterfacesLengthAppend(a: seq<Interface>, b: seq<Interface>)
    ensures InterfacesLength(a + b) == InterfacesLength(a) + InterfacesLength(b)
  {
    if a == [] {
      assert a + b == b;
    } else {
      assert (a + b)[1..] == a[1..] + b;
      InterfacesLengthAppend(a[1..], b);
    }
  }

  // ----- Lemmas for the parse loop -----

  /** At cursor `p` the segments `done` have been made into interfaces and the records `rest` are left. */
  ghost predicate ParsedSoFar(buf: Bytes, p: nat, rest: seq<Record>, done: seq<Segment>) {
    && ParsableBytes(buf) && 9 <= p <= |buf| && buf[p..] == Flatten(rest) && HasInterface(rest)
    && Segments(Split(buf[9..]).value) == done + Segments(rest)
    && (forall k :: 0 <= k < |done| ==> Parsable(done[k]))
    && (forall k :: 0 <= k < |MakeInterfaces(done)| ==> MakeInterfaces(done)[k].Number() < buf[4])
  }

  ghost function BuiltFrom(buf: Bytes, p: nat, rest: seq<Record>, done: seq<Segment>): seq<Option<Group>>
    requires ParsedSoFar(buf, p, rest, done)
  {
    AddAll(Blank(buf[4]), MakeInterfaces(done))
  }

  lemma ParseStart(buf: Bytes)
    requires ParsableBytes(buf)
    ensures ParsedSoFar(buf, 9, Split(buf[9..]).value, [])
    ensures BuiltFrom(buf, 9, Split(buf[9..]).value, []) == Blank(buf[4])
  {
    FlattenSplit(buf[9..]);
  }

  lemma LandsOnEnd(buf: Bytes, p: nat, rest: seq<Record>, done: seq<Segment>)
    requires ParsedSoFar(buf, p, rest, done) && p >= |buf|
    ensures p == |buf|
  {}

  lemma ParseEnd(buf: Bytes, p: nat, rest: seq<Record>, done: seq<Segment>)
    requires ParsedSoFar(buf, p, rest, done) && p == |buf|
    ensures Tree(buf[..9], BuiltFrom(buf, p, rest, done)) == Parse(buf)
  {
    NothingLeft(rest);
    assert done == Segments(Split(buf[9..]).value);
  }

  /** One turn of the loop: `add_interface` is about to be called with `i`. */
  method ParseNext(buf: Bytes, p: nat, ghost rest: seq<Record>, ghost done: seq<Segment>)
    returns (i: Interface, q: nat, ghost after: seq<Record>, ghost done': seq<Segment>)
    requires ParsedSoFar(buf, p, rest, done) && p < |buf|
    ensures p < q && ParsedSoFar(buf, q, after, done')
    ensures i.Number() < buf[4] && i.Alternate() <= 254 && |i.endpoints| == i.NumEndpoints()
    ensures BuiltFrom(buf, q, after, done') == DescriptorTree.AddInterface(BuiltFrom(buf, p, rest, done), i)
  {
    hide Parsable, MakeInterfaces, AddAll, Segments, Flatten, Split, HasInterface, ParsableBytes;
    ghost var s;
    s, after := NextSegment(buf, p, rest, done);
    i, q := ParseInterface(buf, p, s, after);
    MadeOneMore(done, s);
    AddAllSnoc(Blank(buf[4]), MakeInterfaces(done), i);
    done' := done + [s];
  }

  /** The next segment of the records left, and that it can be parsed and placed. */
  lemma NextSegment(buf: Bytes, p: nat, rest: seq<Record>, done: seq<Segment>)
    returns (s: Segment, after: seq<Record>)
    requires ParsedSoFar(buf, p, rest, done) && p < |buf|
    ensures rest == s.All() + after && HasInterface(after)
    ensures Segments(Split(buf[9..]).value) == done + [s] + Segments(after)
    ensures Parsable(s) && Placed(MakeInterface(s), buf[4]) && IsInterface(s.head)
    ensures forall k :: 0 <= k < |s.lead| ==> !IsInterface(s.lead[k])
    ensures forall k :: 0 <= k < |s.body| ==> !IsInterface(s.body[k])
    ensures after == [] || IsInterface(after[0])
  {
    hide Parsable, Placed, UpToInterface, Segments;
    ghost var ss := Segments(Split(buf[9..]).value);
    s, after := SplitSegment(rest);
    assert ss == done + [s] + Segments(after);
    assert ss[|done|] == s;
  }

  lemma NothingLeft(rest: seq<Record>)
    requires Flatten(rest) == []
    ensures rest == [] && Segments(rest) == []
  {}

  lemma {:induction false} MadeOneMore(done: seq<Segment>, s: Segment)
    requires (forall k :: 0 <= k < |done| ==> Parsable(done[k])) && Parsable(s)
    ensures forall k :: 0 <= k < |done + [s]| ==> Parsable((done + [s])[k])
    ensures MakeInterfaces(done + [s]) == MakeInterfaces(done) + [MakeInterface(s)]
  {
    hide Parsable, MakeInterface;
    if done == [] {
      assert done + [s] == [s] && [s][1..] == [];
    } else {
      assert (done + [s])[1..] == done[1..] + [s];
      MadeOneMore(done[1..], s);
    }
  }
}

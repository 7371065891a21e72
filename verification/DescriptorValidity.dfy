/** When a configuration is completely defined, and how long its descriptor is. */
module DescriptorValidity {
  import opened Common
  import opened Records
  import opened DescriptorTree
  import opened DescriptorIo

  // ----- Lengths -----

  /** `get_full_descriptor_length` adds up the length fields, not the bytes. */
  function EndpointsLength(es: seq<Option<Desc7>>): nat {
    if es == [] then 0 else (if es[0].Some? then es[0].value[0] as int else 0) + EndpointsLength(es[1..])
  }

  function InterfaceLength(i: Interface): nat {
    i.desc[0] as int + (if i.hid.Some? then |i.hid.value| else 0) + TotalLength(i.generics)
    + EndpointsLength(i.endpoints)
  }

  function InterfacesLength(its: seq<Interface>): nat {
    if its == [] then 0 else InterfaceLength(its[0]) + InterfacesLength(its[1..])
  }

  function TreeLength(t: Tree): nat {
    t.desc[0] as int + InterfacesLength(InGroups(t.groups))
  }

  lemma {:induction false} EndpointsLengthIs(es: seq<Option<Desc7>>)
    requires forall k :: 0 <= k < |es| && es[k].Some? ==> es[k].value[0] <= 7
    ensures |Flatten(EndpointPieces(es))| == EndpointsLength(es)
  {
    if es != [] {
      EndpointsLengthIs(es[1..]);
      if es[0].Some? {
        assert EndpointPieces(es)[1..] == EndpointPieces(es[1..]);
      } else {
        assert EndpointPieces(es) == EndpointPieces(es[1..]);
      }
    }
  }

  lemma InterfaceLengthIs(i: Interface)
    requires Printable(i)
    ensures |Flatten(Pieces(i))| == InterfaceLength(i)
  {
    InterfaceBytesAre(i);
    FlattenLength(i.generics);
    EndpointsLengthIs(i.endpoints);
    HidBytes(i.hid);
  }

  lemma {:induction false} InterfacesLengthIs(its: seq<Interface>)
    requires forall k :: 0 <= k < |its| ==> Printable(its[k])
    ensures |Flatten(PiecesOf(its))| == InterfacesLength(its)
  {
    hide Printable, Pieces, InterfaceLength;
    if its != [] {
      InterfaceLengthIs(its[0]);
      InterfacesLengthIs(its[1..]);
      FlattenAppend(Pieces(its[0]), PiecesOf(its[1..]));
    }
  }

  /** The announced length is the number of bytes printed. */
  lemma LengthIsPrinted(t: Tree)
    requires PrintableTree(t)
    ensures |Print(t)| == TreeLength(t)
  {
    InterfacesLengthIs(InGroups(t.groups));
  }

  // ----- Errors -----

  datatype ErrorKind = NoError | InvalidDescriptor | NullObject | MisplacedObject | MisplacedIfNum

  datatype ObjectKind = NoObject | ConfigObject | InterfaceObject | EndpointObject | OsConfigObject | GroupObject

  datatype DefinitionError = DefinitionError(
    error: ErrorKind, detail: int, kind: ObjectKind, configId: byte, interfaceNum: byte, alternate: byte,
    endpoint: byte)

  const OK: DefinitionError := DefinitionError(NoError, 0, NoObject, 0, 0, 0, 0)

  /** `Endpoint::is_defined`. */
  function EndpointError(e: Desc7, configId: byte, interfaceNum: byte, alternate: byte): DefinitionError {
    var attributes := e[3] as int;
    var detail := if e[0] != 7 then 1
                  else if e[1] != USB_DT_ENDPOINT then 2
                  else if (e[2] as int / 0x10) % 8 != 0 then 3
                  else if attributes / 0x40 != 0 || (attributes % 4 != 1 && attributes / 4 != 0) then 4
                  else if (attributes % 4 == 1 && e[6] != 1) || (attributes % 4 == 3 && e[6] == 1) then 5
                  else 0;
    if detail == 0 then OK
    else DefinitionError(InvalidDescriptor, detail, EndpointObject, configId, interfaceNum, alternate, e[2])
  }

  // ----- Completely defined -----

  /**
   A defined endpoint: a number of at most 15 in either direction; synchronisation and usage bits
   only on isochronous endpoints, which are polled every frame; interrupt endpoints are not.
   */
  predicate DefinedEndpoint(e: Desc7) {
    var number, transferType := e[2] as int % 0x80, e[3] as int % 4;
    && e[0] == 7 && e[1] == 5 && number <= 15
    && (transferType == 1 ==> e[3] < 0x40 && e[6] == 1)
    && (transferType == 3 ==> e[6] != 1)
    && (transferType != 1 ==> e[3] == transferType)
  }

  predicate DefinedInterface(i: Interface) {
    && i.desc[0] == 9 && i.desc[1] == 4
    && forall k :: 0 <= k < |i.endpoints| ==> i.endpoints[k].Some? && DefinedEndpoint(i.endpoints[k].value)
  }

  predicate DefinedGroup(g: Group) {
    && g.alternates != []
    && forall a :: 0 <= a < |g.alternates| ==>
         && g.alternates[a].Some? && DefinedInterface(g.alternates[a].value)
         && Key(g.alternates[a].value) == (g.number, a)
  }

  predicate DefinedHeader(desc: Desc9, highSpeed: bool) {
    && desc[0] == 9 && desc[1] == (if highSpeed then 7 else 2)
    && desc[4] > 0 && desc[7] in {0x80, 0xa0, 0xc0, 0xe0}
  }

  predicate DefinedGroups(gs: seq<Option<Group>>) {
    forall n :: 0 <= n < |gs| ==> gs[n].Some? && gs[n].value.number == n && DefinedGroup(gs[n].value)
  }

  /** The whole tree is there, everything is in its place, and the announced length is the printed one. */
  predicate Defined(t: Tree, highSpeed: bool) {
    && DefinedHeader(t.desc, highSpeed) && DefinedGroups(t.groups)
    && PrintableTree(t) && |Print(t)| == t.TotalLengthField()
  }

  // ----- What a report means -----

  /** The endpoint is right as far as detail number `detail` of a report is concerned. */
  predicate Passes(e: Desc7, detail: int) {
    match detail
    case 1 => e[0] == 7
    case 2 => e[1] == 5
    case 3 => e[2] as int % 0x80 <= 15
    case 4 => e[3] < 4 || (e[3] < 0x40 && e[3] as int % 4 == 1)
    case 5 => (e[3] as int % 4 == 1 ==> e[6] == 1) && (e[3] as int % 4 == 3 ==> e[6] != 1)
    case _ => true
  }

  predicate EndpointFault(x: Desc7, configId: byte, interfaceNum: byte, alternate: byte, e: DefinitionError) {
    && e == DefinitionError(InvalidDescriptor, e.detail, EndpointObject, configId, interfaceNum, alternate, x[2])
    && !Passes(x, e.detail) && forall d :: 1 <= d < e.detail ==> Passes(x, d)
  }

  /** `e` names the first defect of interface `i`: its descriptor, or an endpoint that is missing or not right. */
  predicate InterfaceFault(i: Interface, configId: byte, interfaceNum: byte, e: DefinitionError) {
    var alternate := i.desc[3];
    if i.desc[0] != 9 then
      e == DefinitionError(InvalidDescriptor, 1, InterfaceObject, configId, interfaceNum, alternate, 0)
    else if i.desc[1] != 4 then
      e == DefinitionError(InvalidDescriptor, 2, InterfaceObject, configId, interfaceNum, alternate, 0)
    else
      exists k :: 0 <= k < |i.endpoints|
        && (forall j :: 0 <= j < k ==> i.endpoints[j].Some? && DefinedEndpoint(i.endpoints[j].value))
        && if i.endpoints[k] == None
           then e == DefinitionError(NullObject, 0, EndpointObject, configId, interfaceNum, alternate, e.endpoint)
                && e.endpoint == k
           else EndpointFault(i.endpoints[k].value, configId, interfaceNum, alternate, e)
  }

  /** `e` names the first alternate that is missing, sits in the wrong place or has a defect itself. */
  predicate AlternateFault(g: Group, configId: byte, a: nat, e: DefinitionError)
    requires a < |g.alternates|
  {
    if g.alternates[a] == None then
      e == DefinitionError(NullObject, 0, InterfaceObject, configId, g.number, e.alternate, 0) && e.alternate == a
    else
      var i := g.alternates[a].value;
      if i.desc[2] != g.number then
        e == DefinitionError(MisplacedIfNum, i.desc[3], InterfaceObject, configId, g.number, e.alternate, 0)
        && e.alternate == a
      else if i.desc[3] != a then
        e == DefinitionError(MisplacedObject, i.desc[3], InterfaceObject, configId, g.number, e.alternate, 0)
        && e.alternate == a
      else InterfaceFault(i, configId, g.number, e)
  }

  predicate GroupFault(g: Group, configId: byte, e: DefinitionError) {
    if g.alternates == [] then e == DefinitionError(NullObject, 0, InterfaceObject, configId, g.number, 0, 0)
    else
      exists a :: 0 <= a < |g.alternates| && AlternateFault(g, configId, a, e)
        && forall b :: 0 <= b < a ==>
             && g.alternates[b].Some? && DefinedInterface(g.alternates[b].value)
             && Key(g.alternates[b].value) == (g.number, b)
  }

  /** `e` names the first group that is missing, sits in the wrong place or has a defect itself. */
  predicate GroupsFault(gs: seq<Option<Group>>, configId: byte, e: DefinitionError) {
    exists n :: 0 <= n < |gs|
      && (forall m :: 0 <= m < n ==> gs[m].Some? && gs[m].value.number == m && DefinedGroup(gs[m].value))
      && if gs[n] == None
         then e == DefinitionError(NullObject, 0, GroupObject, configId, e.interfaceNum, 0, 0) && e.interfaceNum == n
         else if gs[n].value.number != n
         then e == DefinitionError(MisplacedObject, gs[n].value.number, GroupObject, configId, e.interfaceNum, 0, 0)
              && e.interfaceNum == n
         else GroupFault(gs[n].value, configId, e)
  }

  /** `e` names the first defect of the tree: a byte of the configuration descriptor, or something in a group. */
  predicate TreeFault(t: Tree, highSpeed: bool, e: DefinitionError) {
    var configId: byte := if highSpeed && t.desc[5] < 0x80 then t.desc[5] + 0x80 else t.desc[5];
    var header := DefinitionError(InvalidDescriptor, e.detail, if highSpeed then OsConfigObject else ConfigObject,
                                  configId, 0, 0, 0);
    if t.desc[0] != 9 then e == header && e.detail == 1
    else if t.desc[1] != (if highSpeed then 7 else 2) then e == header && e.detail == 2
    else if (t.desc[3] as int) * 0x100 + t.desc[2] != TreeLength(t) then e == header && e.detail == 3
    else if t.desc[4] == 0 then e == header && e.detail == 5
    else if t.desc[7] !in {0x80, 0xa0, 0xc0, 0xe0} then e == header && e.detail == 8
    else GroupsFault(t.groups, configId, e)
  }

  lemma AttributesAreRight(attributes: byte)
    ensures attributes / 0x80 == 1 && attributes % 0x20 == 0 <==> attributes in {0x80, 0xa0, 0xc0, 0xe0}
  {}

  /** There is an error exactly if the endpoint is not right, and it says in which respect. */
  lemma EndpointErrorIsRight(e: Desc7, configId: byte, interfaceNum: byte, alternate: byte)
    ensures var r := EndpointError(e, configId, interfaceNum, alternate);
            && (r.error == NoError <==> DefinedEndpoint(e))
            && (r.error != NoError ==> EndpointFault(e, configId, interfaceNum, alternate, r))
  {}

  lemma {:induction false} DefinedIsPrintable(gs: seq<Option<Group>>)
    requires forall n :: 0 <= n < |gs| ==> gs[n].Some? && DefinedGroup(gs[n].value)
    ensures forall k :: 0 <= k < |InGroups(gs)| ==> Printable(InGroups(gs)[k])
  {
    if gs != [] {
      DefinedIsPrintable(gs[1..]);
      DefinedAlternatesPrintable(gs[0].value.alternates);
    }
  }

  lemma {:induction false} DefinedAlternatesPrintable(xs: seq<Option<Interface>>)
    requires forall a :: 0 <= a < |xs| ==> xs[a].Some? && DefinedInterface(xs[a].value)
    ensures forall k :: 0 <= k < |Present(xs)| ==> Printable(Present(xs)[k])
  {
    if xs != [] {
      DefinedAlternatesPrintable(xs[1..]);
    }
  }

  /** The check the code makes, on length fields, is the property, on printed bytes. */
  lemma DefinedByLengthFields(t: Tree, highSpeed: bool)
    ensures Defined(t, highSpeed)
            <==> DefinedHeader(t.desc, highSpeed) && DefinedGroups(t.groups) && TreeLength(t) == t.TotalLengthField()
  {
    if DefinedHeader(t.desc, highSpeed) && DefinedGroups(t.groups) {
      DefinedIsPrintable(t.groups);
      LengthIsPrinted(t);
    }
  }
}

/**
 The descriptor tree (Configuration, InterfaceGroup, Interface, HID and Endpoint) as values: how it
 is printed, how a block of records is parsed, and when a block or a tree is well formed.
 */
module DescriptorTree {
  import opened Common
  import opened Records

  const USB_DT_CONFIG: byte := 2
  const USB_DT_INTERFACE: byte := 4
  const USB_DT_ENDPOINT: byte := 5
  const USB_DT_OTHER_SPEED_CONFIG: byte := 7
  const HID_DT_HID: byte := 0x21

  /** `usb_config_descriptor` and `usb_interface_descriptor`; the endpoint bytes the parser copies. */
  type Desc9 = d: Bytes | |d| == 9 witness [9, 4, 0, 0, 0, 0, 0, 0, 0]
  type Desc7 = d: Bytes | |d| == 7 witness [7, 5, 0, 0, 0, 0, 0]

  // ----- The tree -----

  datatype Interface = Interface(
    desc: Desc9, hid: Option<Record>, generics: seq<Record>, endpoints: seq<Option<Desc7>>)
  {
    function Number(): byte { desc[2] }
    function Alternate(): byte { desc[3] }
    function NumEndpoints(): byte { desc[4] }
  }

  /** `interfaces` in InterfaceGroup, indexed by alternate setting. */
  datatype Group = Group(number: byte, alternates: seq<Option<Interface>>)

  datatype Tree = Tree(desc: Desc9, groups: seq<Option<Group>>)
  {
    function NumInterfaces(): byte { desc[4] }
    function TotalLengthField(): word { (desc[3] as int) * 0x100 + desc[2] }
  }

  // ----- Printing -----

  /** `memcpy` of `bLength` bytes of a fixed-size struct. */
  function Cut(d: Bytes): Bytes
    requires d != [] && d[0] <= |d|
  { d[..d[0]] }

  predicate Printable(i: Interface) {
    && i.desc[0] <= 9
    && forall k :: 0 <= k < |i.endpoints| && i.endpoints[k].Some? ==> i.endpoints[k].value[0] <= 7
  }

  function Present<T>(xs: seq<Option<T>>): seq<T> {
    if xs == [] then [] else (if xs[0].Some? then [xs[0].value] else []) + Present(xs[1..])
  }

  function EndpointPieces(es: seq<Option<Desc7>>): seq<Bytes>
    requires forall k :: 0 <= k < |es| && es[k].Some? ==> es[k].value[0] <= 7
  {
    if es == [] then []
    else (if es[0].Some? then [Cut(es[0].value)] else []) + EndpointPieces(es[1..])
  }

  function HidPieces(hid: Option<Record>): seq<Bytes> {
    if hid.Some? then [hid.value] else []
  }

  /** One interface: the interface descriptor, HID, the generic descriptors, the endpoints. */
  function Pieces(i: Interface): seq<Bytes>
    requires Printable(i)
  {
    [Cut(i.desc)] + HidPieces(i.hid) + i.generics + EndpointPieces(i.endpoints)
  }

  function PiecesOf(its: seq<Interface>): seq<Bytes>
    requires forall k :: 0 <= k < |its| ==> Printable(its[k])
  {
    if its == [] then [] else Pieces(its[0]) + PiecesOf(its[1..])
  }

  function InGroup(g: Option<Group>): seq<Interface> {
    if g.Some? then Present(g.value.alternates) else []
  }

  /** All interfaces, by number and then by alternate setting. */
  function InGroups(gs: seq<Option<Group>>): seq<Interface> {
    if gs == [] then [] else InGroup(gs[0]) + InGroups(gs[1..])
  }

  predicate PrintableTree(t: Tree) {
    t.desc[0] <= 9 && forall k :: 0 <= k < |InGroups(t.groups)| ==> Printable(InGroups(t.groups)[k])
  }

  /** `Configuration::get_full_descriptor`. */
  function Print(t: Tree): Bytes
    requires PrintableTree(t)
  {
    Cut(t.desc) + Flatten(PiecesOf(InGroups(t.groups)))
  }

  // ----- Parsing -----

  /** The records one interface is made from: those before its descriptor, the descriptor, those after it. */
  datatype Segment = Segment(lead: seq<Record>, head: Record, body: seq<Record>)
  {
    function All(): seq<Record> { lead + [head] + body }
  }

  predicate IsInterface(r: Record) { TypeOf(r) == USB_DT_INTERFACE }
  predicate IsEndpoint(r: Record) { TypeOf(r) == USB_DT_ENDPOINT }
  predicate IsHid(r: Record) { TypeOf(r) == HID_DT_HID }
  predicate IsGeneric(r: Record) { !IsInterface(r) && !IsEndpoint(r) && !IsHid(r) }

  function Select(rs: seq<Record>, p: Record -> bool): seq<Record> {
    if rs == [] then [] else (if p(rs[0]) then [rs[0]] else []) + Select(rs[1..], p)
  }

  /** How many records come before the first interface descriptor. */
  function UpToInterface(rs: seq<Record>): (k: nat)
    ensures k <= |rs| && (k < |rs| ==> IsInterface(rs[k]))
    ensures forall j :: 0 <= j < k ==> !IsInterface(rs[j])
  {
    if rs == [] || IsInterface(rs[0]) then 0 else 1 + UpToInterface(rs[1..])
  }

  /** A block that is not empty has an interface descriptor; without one the parser would run past its end. */
  predicate HasInterface(rs: seq<Record>) {
    rs == [] || UpToInterface(rs) < |rs|
  }

  /** Only the first interface can have records before its descriptor. */
  function Segments(rs: seq<Record>): seq<Segment>
    decreases |rs|
  {
    var k := UpToInterface(rs);
    if k == |rs| then []
    else
      var n := UpToInterface(rs[k + 1..]);
      [Segment(rs[..k], rs[k], rs[k + 1..][..n])] + Segments(rs[k + 1..][n..])
  }

  function LastHid(rs: seq<Record>): Option<Record> {
    if rs == [] then None
    else if IsHid(rs[|rs| - 1]) then Some(rs[|rs| - 1])
    else LastHid(rs[..|rs| - 1])
  }

  function Padded<T>(xs: seq<T>, n: nat): (ys: seq<Option<T>>)
    ensures |ys| == if |xs| <= n then n else |xs|
  {
    seq(if |xs| <= n then n else |xs|, k => if 0 <= k < |xs| then Some(xs[k]) else None)
  }

  /** What the parser's `memcpy`s and buffers rely on. */
  predicate Parsable(s: Segment) {
    && |s.head| == 9
    && (forall k :: 0 <= k < |s.body| && IsEndpoint(s.body[k]) ==> |s.body[k]| == 7)
    && |Select(s.body, IsEndpoint)| <= s.head[4]
    && |s.lead| + |Select(s.body, IsGeneric)| <= 255
  }

  function Endpoints(rs: seq<Record>): seq<Desc7>
    requires forall k :: 0 <= k < |rs| && IsEndpoint(rs[k]) ==> |rs[k]| == 7
  {
    if rs == [] then []
    else
      var rest := Endpoints(rs[1..]);
      if IsEndpoint(rs[0]) then [rs[0]] + rest else rest
  }

  /** The parsing constructor of Interface. */
  function MakeInterface(s: Segment): Interface
    requires Parsable(s)
  {
    Interface(s.head, LastHid(s.body), s.lead + Select(s.body, IsGeneric), Padded(Endpoints(s.body), s.head[4]))
  }

  function MakeInterfaces(ss: seq<Segment>): seq<Interface>
    requires forall k :: 0 <= k < |ss| ==> Parsable(ss[k])
  {
    if ss == [] then [] else [MakeInterface(ss[0])] + MakeInterfaces(ss[1..])
  }

  // ----- Building the tree -----

  function Blank<T>(n: nat): (xs: seq<Option<T>>)
    ensures |xs| == n
  {
    seq(n, _ => None)
  }

  /** `InterfaceGroup::add_interface`. */
  function AddToGroup(g: Group, i: Interface): Group {
    var a := i.Alternate() as int;
    var grown := if a >= |g.alternates| then g.alternates + Blank(a + 1 - |g.alternates|) else g.alternates;
    g.(alternates := grown[a := Some(i)])
  }

  /** `Configuration::add_interface`. */
  function AddInterface(gs: seq<Option<Group>>, i: Interface): (r: seq<Option<Group>>)
    requires i.Number() < |gs|
    ensures |r| == |gs|
  {
    var n := i.Number();
    gs[n := Some(AddToGroup(if gs[n].Some? then gs[n].value else Group(n, []), i))]
  }

  function AddAll(gs: seq<Option<Group>>, its: seq<Interface>): (r: seq<Option<Group>>)
    requires forall k :: 0 <= k < |its| ==> its[k].Number() < |gs|
    ensures |r| == |gs|
  {
    if its == [] then gs else AddInterface(AddAll(gs, its[..|its| - 1]), its[|its| - 1])
  }

  // ----- Well-formed blocks -----

  function Key(i: Interface): (byte, byte) { (i.Number(), i.Alternate()) }

  predicate DistinctKeys(its: seq<Interface>) {
    forall j, k :: 0 <= j < k < |its| ==> Key(its[j]) != Key(its[k])
  }

  predicate Placed(i: Interface, n: nat) {
    i.Number() < n && i.Alternate() <= 254
  }

  /** What the parser needs of the bytes after the configuration descriptor. */
  predicate ParsableBlock(desc: Desc9, rs: seq<Record>) {
    && HasInterface(rs)
    && (forall k :: 0 <= k < |Segments(rs)| ==> Parsable(Segments(rs)[k]))
    && (forall k :: 0 <= k < |Segments(rs)| ==> Placed(MakeInterface(Segments(rs)[k]), desc[4]))
  }

  /** `Configuration`'s parsing constructor, from the bytes of the configuration. */
  function ParseRecords(desc: Desc9, rs: seq<Record>): Tree
    requires ParsableBlock(desc, rs)
  {
    PlacedInterfaces(Segments(rs), desc[4]);
    Tree(desc, AddAll(Blank(desc[4]), MakeInterfaces(Segments(rs))))
  }

  lemma {:induction false} PlacedInterfaces(ss: seq<Segment>, n: nat)
    requires forall k :: 0 <= k < |ss| ==> Parsable(ss[k]) && Placed(MakeInterface(ss[k]), n)
    ensures |MakeInterfaces(ss)| == |ss|
    ensures forall k :: 0 <= k < |ss| ==> MakeInterfaces(ss)[k] == MakeInterface(ss[k])
  {
    if ss != [] {
      PlacedInterfaces(ss[1..], n);
    }
  }

  predicate ParsableBytes(b: Bytes) {
    |b| >= 9 && Split(b[9..]).Some? && ParsableBlock(b[..9], Split(b[9..]).value)
  }

  function Parse(b: Bytes): Tree
    requires ParsableBytes(b)
  {
    ParseRecords(b[..9], Split(b[9..]).value)
  }
}

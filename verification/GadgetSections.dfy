/** The sections of the gadget block, how they are built and how they are found again. */
module GadgetSections {
  import opened Common
  import opened Records
  import opened DescriptorTree
  import opened DescriptorIo
  import opened DescriptorValidity
  import opened DescriptorObjects
  import opened GadgetBlob
  import opened GadgetWalk

  const USB_BUFSIZE: nat := 7 * 1024

  /** `bmAttributes &= ~USB_CONFIG_ATT_WAKEUP`. */
  function ClearWakeup(b: byte): byte {
    if (b as int / 0x20) % 2 == 1 then b - 0x20 else b
  }

  /** The configuration descriptor of a section: type, total length and wake-up bit are patched. */
  function PatchedHeader(desc: Desc9, length: nat): Desc9 {
    desc[1 := USB_DT_CONFIG][7 := ClearWakeup(desc[7])][2 := length % 0x100][3 := length / 0x100 % 0x100]
  }

  /** A configuration and the active alternate of each of its interface numbers. */
  datatype Configured = Configured(tree: Tree, active: seq<int>)

  /** What both passes can print. */
  predicate Emittable(c: Configured) {
    && c.tree.desc[0] == 9 && |c.tree.groups| == c.tree.NumInterfaces() && PrintableTree(c.tree)
    && |c.active| == |c.tree.groups|
  }

  function Patched(t: Tree): Bytes
    requires PrintableTree(t)
  {
    PatchedHeader(t.desc, |Print(t)|) + Flatten(PiecesOf(InGroups(t.groups)))
  }

  /** A section of either pass; None is undefined behaviour of the walk that adjusts the intervals. */
  function Section(c: Configured, adjust: bool): Option<Bytes>
    requires Emittable(c)
  {
    if !adjust then Some(Patched(c.tree))
    else
      var r := WalkState(Patched(c.tree), c.tree.groups, c.active, |c.tree.groups|);
      if r == None then None else Some(r.value.0)
  }

  /** The walk is right for this configuration. */
  predicate Adjustable(c: Configured) {
    Emittable(c) && GadgetWalk.Ready(c.tree.groups, c.active) && Sized(InGroups(c.tree.groups))
    && Aligned(c.tree.groups, c.active)
  }

  /** Then the section is the printed configuration with new intervals in the active interfaces. */
  lemma AdjustedSection(c: Configured)
    requires Adjustable(c)
    ensures AllPrintable(InGroups(BoostedActive(c.tree.groups, c.active)))
    ensures Section(c, true) ==
              Some(PatchedHeader(c.tree.desc, |Print(c.tree)|)
                   + Flatten(PiecesOf(InGroups(BoostedActive(c.tree.groups, c.active)))))
  {
    hide InGroups, Flatten, PiecesOf, BoostedActive, Aligned, GadgetWalk.Ready, WalkState, Sized, PatchedHeader;
    WalkIsRight(PatchedHeader(c.tree.desc, |Print(c.tree)|), c.tree.groups, c.active);
  }

  /** A section says how long it is. */
  predicate SelfDescribing(s: Bytes) {
    9 <= |s| < 0x1_0000 && s[1] == USB_DT_CONFIG && (s[3] as int) * 0x100 + s[2] == |s|
  }

  /** Whatever the walk does, the section is as long as the printed configuration, and its header is intact. */
  lemma SectionKeeps(c: Configured, adjust: bool)
    requires Emittable(c) && Section(c, adjust).Some?
    ensures var s := Section(c, adjust).value;
            |s| == |Print(c.tree)| && |s| >= 9 && s[..9] == PatchedHeader(c.tree.desc, |Print(c.tree)|)
  {
    hide InGroups, Flatten, PiecesOf, WalkState, PatchedHeader, PrintableTree;
    assert Cut(c.tree.desc) == c.tree.desc;
    assert Patched(c.tree)[..9] == PatchedHeader(c.tree.desc, |Print(c.tree)|);
    if adjust {
      WalkKeepsHeader(Patched(c.tree), c.tree.groups, c.active, |c.tree.groups|);
    }
  }

  /** What the patches leave of the configuration descriptor: all but type, total length and the wake-up bit. */
  lemma HeaderOfSection(c: Configured, adjust: bool)
    requires Emittable(c) && Section(c, adjust).Some?
    ensures var s, desc := Section(c, adjust).value, c.tree.desc;
            && 9 <= |s| && s[1] == 2 && (s[3] as int) * 0x100 + s[2] == |s| % 0x1_0000
            && s[0] == desc[0] && s[4] == desc[4] && s[5] == desc[5] && s[6] == desc[6] && s[8] == desc[8]
            && s[7] / 0x20 % 2 == 0 && s[7] / 0x40 == desc[7] / 0x40 && s[7] % 0x20 == desc[7] % 0x20
    ensures !adjust ==> Section(c, adjust).value[9..] == Print(c.tree)[9..]
  {
    SectionKeeps(c, adjust);
    assert Cut(c.tree.desc) == c.tree.desc;
    hide Print, Flatten, PiecesOf, InGroups, PrintableTree, WalkState;
    var s, length := Section(c, adjust).value, |Print(c.tree)|;
    HeaderBytes(c.tree.desc, length);
    assert forall k :: 0 <= k < 9 ==> s[k] == s[..9][k];
  }

  lemma HeaderBytes(desc: Desc9, length: nat)
    ensures var h := PatchedHeader(desc, length);
            && h[1] == 2 && (h[3] as int) * 0x100 + h[2] == length % 0x1_0000
            && h[0] == desc[0] && h[4] == desc[4] && h[5] == desc[5] && h[6] == desc[6] && h[8] == desc[8]
            && h[7] / 0x20 % 2 == 0 && h[7] / 0x40 == desc[7] / 0x40 && h[7] % 0x20 == desc[7] % 0x20
  {}

  lemma SectionDescribesItself(c: Configured, adjust: bool)
    requires Emittable(c) && Section(c, adjust).Some? && |Print(c.tree)| < 0x1_0000
    ensures SelfDescribing(Section(c, adjust).value)
  {
    SectionKeeps(c, adjust);
    hide Section, Print, Emittable;
    var s := Section(c, adjust).value;
    assert s[1] == s[..9][1] && s[2] == s[..9][2] && s[3] == s[..9][3];
  }

  // ----- One configuration -----

  /**
   One configuration of either pass: printed, patched and, if asked, walked. There is no result if the walk has
   none.
   */
  method BuildSection(cfg: Configuration, adjust: bool) returns (buf: array?<byte>)
    requires cfg.Valid() && Emittable(Configured(cfg.View(), cfg.Indices()))
    ensures var s := Section(Configured(old(cfg.View()), old(cfg.Indices())), adjust);
            if s == None then buf == null else buf != null && fresh(buf) && buf[..] == s.value
  {
    hide Flatten, PiecesOf, InGroups, Printable, WalkState;
    ghost var t, active := cfg.View(), cfg.Indices();
    var length := cfg.GetFullDescriptorLength();
    assert cfg.GroupViews() == t.groups;
    LengthIsPrinted(t);
    buf := cfg.GetFullDescriptor();
    assert cfg.GroupViews() == t.groups && Cut(t.desc) == t.desc;
    assert buf[..] == t.desc + Flatten(PiecesOf(InGroups(t.groups)));
    PatchHeader(buf, length, t.desc, Flatten(PiecesOf(InGroups(t.groups))));
    assert cfg.GroupViews() == t.groups && cfg.Indices() == active;
    if adjust {
      var ok := WalkGroups(cfg, t.groups, active, buf);
      if !ok {
        buf := null;
      }
    }
  }

  method PatchHeader(buf: array<byte>, length: nat, ghost desc: Desc9, ghost rest: Bytes)
    requires buf[..] == desc + rest
    modifies buf
    ensures buf[..] == PatchedHeader(desc, length) + rest
  {
    buf[1] := USB_DT_CONFIG;
    buf[7] := ClearWakeup(buf[7]);
    buf[2] := length % 0x100;
    buf[3] := length / 0x100 % 0x100;
  }

  lemma {:induction false} WalkStaysUndefined(b: Bytes, gs: seq<Option<Group>>, active: seq<int>, j: nat, k: nat)
    requires j <= k <= |gs| == |active| && WalkState(b, gs, active, j) == None
    ensures WalkState(b, gs, active, k) == None
    decreases k - j
  {
    if j < k {
      WalkStaysUndefined(b, gs, active, j, k - 1);
    }
  }

  lemma WalkOne(b: Bytes, gs: seq<Option<Group>>, active: seq<int>, k: nat, c: Bytes, p: nat)
    requires k < |gs| == |active| && WalkState(b, gs, active, k) == Some((c, p))
    ensures var i := ActiveOf(gs[k], active[k]);
            WalkState(b, gs, active, k + 1) ==
              if i == None then None else WalkEndpointBytes(c, p + Skip(i.value), i.value.NumEndpoints())
  {}

  /** The loop over interface numbers, each with the active interface of its group. */
  method WalkGroups(cfg: Configuration, ghost gs: seq<Option<Group>>, ghost active: seq<int>, buf: array<byte>)
    returns (ok: bool)
    requires cfg.Valid() && gs == cfg.GroupViews() && active == cfg.Indices()
    modifies buf
    ensures var r := WalkState(old(buf[..]), gs, active, |gs|);
            if r == None then !ok else ok && buf[..] == r.value.0
  {
    hide WalkState, Skip, WalkEndpointBytes;
    ghost var b := buf[..];
    var pointer: nat := 9;
    WalkStarts(b, gs, active);
    for k := 0 to cfg.interfaceGroups.Length
      invariant WalkState(b, gs, active, k) == Some((buf[..], pointer))
    {
      var group := cfg.interfaceGroups[k];
      WalkOne(b, gs, active, k, buf[..], pointer);
      if group == null || group.activeAlternateIndex < 0 || group.activeAlternateIndex >= |group.interfaces|
         || group.interfaces[group.activeAlternateIndex] == None {
        WalkStaysUndefined(b, gs, active, k + 1, |gs|);
        return false;
      }
      var next := WalkInterface(group.interfaces[group.activeAlternateIndex].value, buf, pointer);
      if next == None {
        WalkStaysUndefined(b, gs, active, k + 1, |gs|);
        return false;
      }
      pointer := next.value;
    }
    ok := true;
  }

  // ----- The whole block -----

  /** A device: `get_configuration(i)` reads entry i - 1, or NULL past the end. */
  datatype Device = Device(
    descriptor: Bytes, highspeed: bool, configurations: seq<Configuration?>, qualifier: Option<seq<Configuration?>>)
  {
    function Count(): nat
      requires |descriptor| == 18
    { descriptor[17] }

    /** The configurations the first (or the second) pass asks for. */
    function Source(first: bool): seq<Configuration?> {
      if first == highspeed && qualifier.Some? then qualifier.value else configurations
    }
  }

  /** The values behind a list of configurations, whose objects all lie in `footprint`. */
  ghost predicate Behind(cs: seq<Configuration?>, ts: seq<Option<Configured>>, footprint: set<object>)
    reads footprint
  {
    && |cs| == |ts|
    && forall k :: 0 <= k < |cs| ==>
         if cs[k] == null then ts[k] == None
         else
           && cs[k] in footprint && cs[k].interfaceGroups in footprint && cs[k].Groups() <= footprint
           && ts[k].Some? && cs[k].Valid() && Configured(cs[k].View(), cs[k].Indices()) == ts[k].value
  }

  predicate Printables(ts: seq<Option<Configured>>) {
    forall k :: 0 <= k < |ts| && ts[k].Some? ==> Emittable(ts[k].value)
  }

  /** The sections of one pass, from index `i` on. */
  function Pass(ts: seq<Option<Configured>>, adjust: bool, count: nat, i: nat): Option<seq<Bytes>>
    requires i <= count && Printables(ts)
    decreases count - i
  {
    if i == count then Some([])
    else
      var rest := Pass(ts, adjust, count, i + 1);
      if i >= |ts| || ts[i] == None then rest
      else
        var s := Section(ts[i].value, adjust);
        if s == None || rest == None then None else Some([s.value] + rest.value)
  }

  method EmitSection(cfg: Configuration, ghost c: Configured, adjust: bool, buf: array<byte>, p: nat)
    returns (q: Option<nat>)
    requires cfg.Valid() && Configured(cfg.View(), cfg.Indices()) == c && Emittable(c)
    modifies buf
    ensures var s := Section(c, adjust);
            if s == None || p + |s.value| > buf.Length then q == None
            else q == Some(p + |s.value|) && Wrote(old(buf[..]), buf[..], p, s.value)
  {
    hide Wrote, Section;
    var section := BuildSection(cfg, adjust);
    if section == null || p + section.Length > buf.Length {
      return None;
    }
    var end := Put(buf, p, section[..]);
    q := Some(end);
  }

  /** The whole pass in terms of the sections emitted already and those to come. */
  function After(done: seq<Bytes>, rest: Option<seq<Bytes>>): Option<seq<Bytes>> {
    if rest == None then None else Some(done + rest.value)
  }

  method EmitPass(cs: seq<Configuration?>, ghost ts: seq<Option<Configured>>, adjust: bool, count: nat,
                  buf: array<byte>, p: nat, ghost footprint: set<object>)
    returns (q: Option<nat>)
    requires Behind(cs, ts, footprint) && buf !in footprint && Printables(ts) && p <= buf.Length
    modifies buf
    ensures var r := Pass(ts, adjust, count, 0);
            if r == None || p + |Flatten(r.value)| > buf.Length then q == None
            else q == Some(p + |Flatten(r.value)|) && Wrote(old(buf[..]), buf[..], p, Flatten(r.value))
    ensures Behind(cs, ts, footprint)
  {
    hide Flatten, Wrote, Section, Emittable, Pass, Configuration.Valid, Configuration.View, Configuration.Groups;
    var pos := p;
    ghost var done: seq<Bytes> := [];
    FlattenNone();
    WroteNothing(buf[..], p);
    NothingBefore(Pass(ts, adjust, count, 0));
    for i := 0 to count
      invariant Behind(cs, ts, footprint)
      invariant pos == p + |Flatten(done)| <= buf.Length && Wrote(old(buf[..]), buf[..], p, Flatten(done))
      invariant Pass(ts, adjust, count, 0) == After(done, Pass(ts, adjust, count, i))
    {
      PassStep(ts, adjust, count, i, done);
      if i < |cs| && cs[i] != null {
        ghost var before := buf[..];
        var next := EmitSection(cs[i], ts[i].value, adjust, buf, pos);
        if next == None {
          return None;
        }
        ghost var section := Section(ts[i].value, adjust).value;
        WroteBoth(old(buf[..]), before, buf[..], p, Flatten(done), section);
        pos := next.value;
        done := done + [section];
      }
    }
    PassEnd(ts, adjust, count, done);
    q := Some(pos);
  }

  lemma NothingBefore(r: Option<seq<Bytes>>)
    ensures After([], r) == r
  {
    assert r.Some? ==> [] + r.value == r.value;
  }

  lemma PassEnd(ts: seq<Option<Configured>>, adjust: bool, count: nat, done: seq<Bytes>)
    requires Printables(ts)
    ensures After(done, Pass(ts, adjust, count, count)) == Some(done)
  {
    assert done + [] == done;
  }

  /** One configuration more, and that a section which does not fit leaves no room for the whole pass. */
  lemma PassStep(ts: seq<Option<Configured>>, adjust: bool, count: nat, i: nat, done: seq<Bytes>)
    requires i < count && Printables(ts)
    ensures var r := After(done, Pass(ts, adjust, count, i));
            if i >= |ts| || ts[i] == None then r == After(done, Pass(ts, adjust, count, i + 1))
            else
              var s := Section(ts[i].value, adjust);
              if s == None then r == None
              else
                && r == After(done + [s.value], Pass(ts, adjust, count, i + 1))
                && Flatten(done + [s.value]) == Flatten(done) + s.value
                && (r.Some? ==> |Flatten(done)| + |s.value| <= |Flatten(r.value)|)
  {
    hide Section, Flatten;
    if i < |ts| && ts[i].Some? && Section(ts[i].value, adjust).Some? {
      var s := Section(ts[i].value, adjust).value;
      FlattenAppend(done, [s]);
      FlattenOne(s);
      var rest := Pass(ts, adjust, count, i + 1);
      if rest.Some? {
        assert done + ([s] + rest.value) == done + [s] + rest.value;
        FlattenAppend(done + [s], rest.value);
      }
    }
  }

  /** Pass after pass. */
  function Both(one: Option<seq<Bytes>>, two: Option<seq<Bytes>>): Option<seq<Bytes>> {
    if one == None || two == None then None else Some(one.value + two.value)
  }

  /** The whole block. */
  function Blob(ss: Option<seq<Bytes>>, device: Bytes): Option<Bytes> {
    if ss == None then None else Some([0, 0, 0, 0] + Flatten(ss.value) + device)
  }

  /**
   What a device announces: its own configurations are `own`, those of its qualifier `other`. A high-speed device
   with a qualifier lists the qualifier's configurations and then its own; a full-speed device lists its own and
   then, with new intervals, the qualifier's. Without a qualifier a device lists its own twice.
   */
  function Announced(d: Device, own: seq<Option<Configured>>, other: Option<seq<Option<Configured>>>)
    : Option<seq<Bytes>>
    requires |d.descriptor| == 18 && Printables(own) && (other.Some? ==> Printables(other.value))
  {
    var n: byte := d.descriptor[17];
    if other == None then Both(Pass(own, false, n, 0), Pass(own, !d.highspeed, n, 0))
    else if d.highspeed then Both(Pass(other.value, false, n, 0), Pass(own, false, n, 0))
    else Both(Pass(own, false, n, 0), Pass(other.value, true, n, 0))
  }

  /** The values behind the qualifier's list, if there is a qualifier. */
  ghost predicate BehindQualifier(cs: Option<seq<Configuration?>>, ts: Option<seq<Option<Configured>>>,
                                  footprint: set<object>)
    reads footprint
  {
    (cs == None <==> ts == None) && (cs.Some? ==> Behind(cs.value, ts.value, footprint))
  }

  /** The bytes of both passes. */
  function Passes(d: Device, first: seq<Option<Configured>>, second: seq<Option<Configured>>): Option<Bytes>
    requires |d.descriptor| == 18 && Printables(first) && Printables(second)
  {
    var one, two := Pass(first, false, d.Count(), 0), Pass(second, !d.highspeed, d.Count(), 0);
    if one == None || two == None then None else Some(Flatten(one.value) + Flatten(two.value))
  }

  lemma BlobParts(d: Device, first: seq<Option<Configured>>, second: seq<Option<Configured>>)
    requires |d.descriptor| == 18 && Printables(first) && Printables(second)
    ensures var r := Passes(d, first, second);
            Blob(Both(Pass(first, false, d.Count(), 0), Pass(second, !d.highspeed, d.Count(), 0)), d.descriptor)
            == if r == None then None else Some([0, 0, 0, 0] + r.value + d.descriptor)
  {
    hide Flatten, Pass, Printables;
    var one, two := Pass(first, false, d.Count(), 0), Pass(second, !d.highspeed, d.Count(), 0);
    if one.Some? && two.Some? {
      FlattenAppend(one.value, two.value);
    }
  }

  method EmitPasses(d: Device, ghost first: seq<Option<Configured>>, ghost second: seq<Option<Configured>>,
                    ghost footprint: set<object>, buf: array<byte>, p: nat)
    returns (q: Option<nat>)
    requires |d.descriptor| == 18 && Printables(first) && Printables(second)
    requires Behind(d.Source(true), first, footprint) && Behind(d.Source(false), second, footprint)
    requires buf !in footprint && p <= buf.Length
    modifies buf
    ensures var r := Passes(d, first, second);
            if r == None || p + |r.value| > buf.Length then q == None
            else q == Some(p + |r.value|) && Wrote(old(buf[..]), buf[..], p, r.value)
  {
    hide Flatten, Wrote, Pass, Behind, Printables;
    ghost var one, two := Pass(first, false, d.Count(), 0), Pass(second, !d.highspeed, d.Count(), 0);
    ghost var b0 := buf[..];
    q := EmitPass(d.Source(true), first, false, d.Count(), buf, p, footprint);
    if q == None {
      return;
    }
    ghost var b1 := buf[..];
    q := EmitPass(d.Source(false), second, !d.highspeed, d.Count(), buf, q.value, footprint);
    if q.Some? {
      WroteBoth(b0, b1, buf[..], p, Flatten(one.value), Flatten(two.value));
    }
  }

  /** Both passes and the device descriptor; there is no result if a section has none or the buffer is too small. */
  method FillBlob(d: Device, ghost first: seq<Option<Configured>>, ghost second: seq<Option<Configured>>,
                  ghost footprint: set<object>, buf: array<byte>)
    returns (ptr: Option<nat>)
    requires |d.descriptor| == 18 && Printables(first) && Printables(second)
    requires Behind(d.Source(true), first, footprint) && Behind(d.Source(false), second, footprint)
    requires buf !in footprint && buf.Length >= 4
    modifies buf
    ensures var ss := Both(Pass(first, false, d.Count(), 0), Pass(second, !d.highspeed, d.Count(), 0));
            var r := Blob(ss, d.descriptor);
            if r == None || |r.value| > buf.Length then ptr == None
            else ptr == Some(|r.value|) && Wrote(old(buf[..]), buf[..], 0, r.value)
  {
    hide Wrote, Passes, Behind, Printables, Blob;
    BlobParts(d, first, second);
    ghost var r := Passes(d, first, second);
    ghost var tag: Bytes := [0, 0, 0, 0];
    ghost var b0 := buf[..];
    var at := Put(buf, 0, [0, 0, 0, 0]);
    ghost var b1 := buf[..];
    ptr := EmitPasses(d, first, second, footprint, buf, at);
    if ptr == None || ptr.value + |d.descriptor| > buf.Length {
      return None;
    }
    ghost var b2 := buf[..];
    WroteBoth(b0, b1, b2, 0, tag, r.value);
    at := Put(buf, ptr.value, d.descriptor);
    WroteBoth(b0, b2, buf[..], 0, tag + r.value, d.descriptor);
    ptr := Some(at);
  }

  /** `generate_descriptor`; a result exists exactly when every walk is defined and the block fits the first buffer. */
  method GenerateDescriptor(d: Device, ghost own: seq<Option<Configured>>,
                            ghost other: Option<seq<Option<Configured>>>, ghost footprint: set<object>)
    returns (descriptor: array?<byte>)
    requires |d.descriptor| == 18 && Printables(own) && (other.Some? ==> Printables(other.value))
    requires Behind(d.configurations, own, footprint) && BehindQualifier(d.qualifier, other, footprint)
    ensures var r := Blob(Announced(d, own, other), d.descriptor);
            if r == None || |r.value| > 7168 then descriptor == null
            else descriptor != null && fresh(descriptor) && descriptor[..] == r.value
  {
    hide Blob, Wrote, Behind, Printables, Pass;
    ghost var first := if d.highspeed && other.Some? then other.value else own;
    ghost var second := if !d.highspeed && other.Some? then other.value else own;
    var buf := new byte[USB_BUFSIZE];
    ghost var blank := buf[..];
    var length := FillBlob(d, first, second, footprint, buf);
    if length == None {
      return null;
    }
    WrotePrefix(blank, buf[..], Blob(Announced(d, own, other), d.descriptor).value);
    var n := length.value;
    descriptor := new byte[n](k requires 0 <= k < n && n <= buf.Length reads buf => buf[k]);
    assert descriptor[..] == buf[..n];
  }

  lemma WrotePrefix(before: Bytes, after: Bytes, bytes: Bytes)
    requires Wrote(before, after, 0, bytes)
    ensures |bytes| <= |after| && after[..|bytes|] == bytes
  {}

  /**
   If the second pass adjusts no interval, or only those of configurations for which the walk is right, there is
   a block.
   */
  lemma {:induction false} PassIsDefined(ts: seq<Option<Configured>>, adjust: bool, count: nat, i: nat)
    requires i <= count && Printables(ts)
    requires forall k :: 0 <= k < |ts| && ts[k].Some? && adjust ==> Adjustable(ts[k].value)
    ensures Pass(ts, adjust, count, i).Some?
    decreases count - i
  {
    hide Adjustable, Section;
    if i < count {
      PassIsDefined(ts, adjust, count, i + 1);
      if i < |ts| && ts[i].Some? {
        SectionIsDefined(ts[i].value, adjust);
      }
    }
  }

  lemma SectionIsDefined(c: Configured, adjust: bool)
    requires Emittable(c) && (adjust ==> Adjustable(c))
    ensures Section(c, adjust).Some?
  {
    if adjust {
      AdjustedSection(c);
    }
  }

  // ----- Finding the sections again -----

  /** Stepping by each section's own total length until only the device descriptor is left. */
  function SplitSections(b: Bytes): seq<Bytes>
    decreases |b|
  {
    if |b| <= 18 then []
    else
      var n := (b[3] as int) * 0x100 + b[2];
      if n < 9 || n > |b| then [] else [b[..n]] + SplitSections(b[n..])
  }

  lemma SplitFirst(s: Bytes, rest: Bytes)
    requires SelfDescribing(s) && |rest| >= 18
    ensures SplitSections(s + rest) == [s] + SplitSections(rest)
  {
    var b := s + rest;
    assert b[..|s|] == s && b[|s|..] == rest && b[2] == s[2] && b[3] == s[3];
  }

  lemma {:induction false} SplitsBack(sections: seq<Bytes>, device: Bytes)
    requires |device| == 18 && forall k :: 0 <= k < |sections| ==> SelfDescribing(sections[k])
    ensures SplitSections(Flatten(sections) + device) == sections
  {
    hide SelfDescribing;
    if sections != [] {
      var s, rest := sections[0], Flatten(sections[1..]) + device;
      assert Flatten(sections) + device == s + rest;
      SplitFirst(s, rest);
      SplitsBack(sections[1..], device);
    } else {
      assert Flatten(sections) + device == device;
    }
  }

  lemma {:induction false} PassDescribesItself(ts: seq<Option<Configured>>, adjust: bool, count: nat, i: nat)
    requires i <= count && Printables(ts) && Pass(ts, adjust, count, i).Some?
    requires |Flatten(Pass(ts, adjust, count, i).value)| < 0x1_0000
    ensures var ss := Pass(ts, adjust, count, i).value; forall k :: 0 <= k < |ss| ==> SelfDescribing(ss[k])
    decreases count - i
  {
    hide Section, SelfDescribing, Flatten, Emittable;
    if i < count {
      if i < |ts| && ts[i].Some? {
        var s := Section(ts[i].value, adjust).value;
        FlattenAppend([s], Pass(ts, adjust, count, i + 1).value);
        FlattenOne(s);
        SectionKeeps(ts[i].value, adjust);
        SectionDescribesItself(ts[i].value, adjust);
      }
      PassDescribesItself(ts, adjust, count, i + 1);
    }
  }

  /** The entries from i to count, as far as there are any. */
  function Entries<T>(ts: seq<T>, count: nat, i: nat): seq<T>
    requires i <= count
  {
    if i >= |ts| then [] else ts[i..if count < |ts| then count else |ts|]
  }

  /** The sections are those of the configurations, in their order. */
  predicate AreSectionsOf(ss: seq<Bytes>, cs: seq<Configured>, adjust: bool) {
    && |ss| == |cs|
    && forall k :: 0 <= k < |ss| ==> Emittable(cs[k]) && Section(cs[k], adjust) == Some(ss[k])
  }

  lemma OneSectionMore(s: Bytes, c: Configured, ss: seq<Bytes>, cs: seq<Configured>, adjust: bool)
    requires AreSectionsOf(ss, cs, adjust) && Emittable(c) && Section(c, adjust) == Some(s)
    ensures AreSectionsOf([s] + ss, [c] + cs, adjust)
  {
    hide Section, Emittable;
  }

  lemma NoSections(adjust: bool)
    ensures AreSectionsOf([], [], adjust) && Present<Configured>([]) == []
  {}

  /** A pass lists the configurations that are there, each once and in order, and passes over those that are not. */
  lemma {:induction false} PassLists(ts: seq<Option<Configured>>, adjust: bool, count: nat, i: nat)
    requires i <= count && Printables(ts) && Pass(ts, adjust, count, i).Some?
    ensures AreSectionsOf(Pass(ts, adjust, count, i).value, Present(Entries(ts, count, i)), adjust)
    decreases count - i
  {
    hide Section, Emittable, Present, AreSectionsOf;
    NoSections(adjust);
    assert i >= |ts| || i == count ==> Entries(ts, count, i) == [];
    if i < count {
      PassLists(ts, adjust, count, i + 1);
      if i < |ts| {
        var rest := Entries(ts, count, i + 1);
        assert Entries(ts, count, i) == [ts[i]] + rest;
        PresentFirst(ts[i], rest);
        if ts[i].Some? {
          OneSectionMore(Section(ts[i].value, adjust).value, ts[i].value, Pass(ts, adjust, count, i + 1).value,
                         Present(rest), adjust);
        }
      }
    }
  }

  lemma PresentFirst(x: Option<Configured>, rest: seq<Option<Configured>>)
    ensures Present([x] + rest) == if x.Some? then [x.value] + Present(rest) else Present(rest)
  {
    assert ([x] + rest)[1..] == rest;
  }

  /**
   The block splits back: it is four zero bytes, the sections of the first pass, those of the second
   and the device descriptor, and stepping by each section's patched wTotalLength recovers every
   section. Its length is the exact sum.
   */
  lemma BlobSplitsBack(d: Device, own: seq<Option<Configured>>, other: Option<seq<Option<Configured>>>)
    requires |d.descriptor| == 18 && Printables(own) && (other.Some? ==> Printables(other.value))
    requires Announced(d, own, other).Some?
    requires |Blob(Announced(d, own, other), d.descriptor).value| <= USB_BUFSIZE
    ensures var ss := Announced(d, own, other).value;
            var b := Blob(Some(ss), d.descriptor).value;
            && b[..4] == [0, 0, 0, 0] && b[|b| - 18..] == d.descriptor
            && SplitSections(b[4..]) == ss
            && |b| == 4 + TotalLength(ss) + 18
  {
    hide Pass, Printables, Flatten, SplitSections, TotalLength;
    var n: byte := d.descriptor[17];
    var ss := Announced(d, own, other).value;
    assert Blob(Some(ss), d.descriptor).value[4..] == Flatten(ss) + d.descriptor;
    if other == None {
      SplitsBothPasses(d.descriptor, own, false, own, !d.highspeed, n);
    } else if d.highspeed {
      SplitsBothPasses(d.descriptor, other.value, false, own, false, n);
    } else {
      SplitsBothPasses(d.descriptor, own, false, other.value, true, n);
    }
  }

  lemma SplitsBothPasses(device: Bytes, first: seq<Option<Configured>>, a1: bool,
                         second: seq<Option<Configured>>, a2: bool, n: nat)
    requires |device| == 18 && Printables(first) && Printables(second)
    requires Pass(first, a1, n, 0).Some? && Pass(second, a2, n, 0).Some?
    requires |Flatten(Pass(first, a1, n, 0).value + Pass(second, a2, n, 0).value)| < 0x1_0000
    ensures var ss := Pass(first, a1, n, 0).value + Pass(second, a2, n, 0).value;
            SplitSections(Flatten(ss) + device) == ss && |Flatten(ss)| == TotalLength(ss)
  {
    hide Pass, Printables, SelfDescribing, Flatten, SplitSections, TotalLength;
    var p1, p2 := Pass(first, a1, n, 0).value, Pass(second, a2, n, 0).value;
    FlattenAppend(p1, p2);
    FlattenLength(p1 + p2);
    PassDescribesItself(first, a1, n, 0);
    PassDescribesItself(second, a2, n, 0);
    SplitsBack(p1 + p2, device);
  }
}

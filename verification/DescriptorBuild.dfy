/** The tree is a table from (number, alternate setting) to interfaces. */
module DescriptorBuild {
  import opened Common
  import opened DescriptorTree

  function Lookup(gs: seq<Option<Group>>, n: nat, a: nat): Option<Interface> {
    if n < |gs| && gs[n].Some? && a < |gs[n].value.alternates| then gs[n].value.alternates[a] else None
  }

  /** The last interface of a list with this number and alternate setting. */
  function Find(its: seq<Interface>, n: nat, a: nat): Option<Interface> {
    if its == [] then None
    else
      var i := its[|its| - 1];
      if i.Number() == n && i.Alternate() == a then Some(i) else Find(its[..|its| - 1], n, a)
  }

  /** Groups know their number, and their tables are no longer than needed. */
  predicate Canonical(gs: seq<Option<Group>>) {
    forall n :: 0 <= n < |gs| && gs[n].Some? ==>
      var g := gs[n].value;
      g.number == n && g.alternates != [] && g.alternates[|g.alternates| - 1].Some?
  }

  lemma AddedLookup(gs: seq<Option<Group>>, i: Interface, n: nat, a: nat)
    requires i.Number() < |gs|
    ensures Lookup(AddInterface(gs, i), n, a)
            == if i.Number() == n && i.Alternate() == a then Some(i) else Lookup(gs, n, a)
  {}

  lemma AddedCanonical(gs: seq<Option<Group>>, i: Interface)
    requires Canonical(gs) && i.Number() < |gs|
    ensures Canonical(AddInterface(gs, i))
  {}

  /** After any sequence of `add_interface`, each place holds the last interface added for it. */
  lemma {:induction false} AddAllLookup(gs: seq<Option<Group>>, its: seq<Interface>, n: nat, a: nat)
    requires Canonical(gs) && forall k :: 0 <= k < |its| ==> its[k].Number() < |gs|
    ensures Canonical(AddAll(gs, its))
    ensures Lookup(AddAll(gs, its), n, a) == if Find(its, n, a).Some? then Find(its, n, a) else Lookup(gs, n, a)
  {
    if its != [] {
      var init, last := its[..|its| - 1], its[|its| - 1];
      AddAllLookup(gs, init, n, a);
      AddedLookup(AddAll(gs, init), last, n, a);
      AddedCanonical(AddAll(gs, init), last);
    }
  }

  lemma SameAlternates(x: Group, y: Group)
    requires x.alternates != [] && x.alternates[|x.alternates| - 1].Some?
    requires y.alternates != [] && y.alternates[|y.alternates| - 1].Some?
    requires forall a: nat :: Lookup([Some(x)], 0, a) == Lookup([Some(y)], 0, a)
    ensures x.alternates == y.alternates
  {
    assert Lookup([Some(x)], 0, |x.alternates| - 1).Some?;
    assert Lookup([Some(y)], 0, |y.alternates| - 1).Some?;
    forall a | 0 <= a < |x.alternates|
      ensures a < |y.alternates| && x.alternates[a] == y.alternates[a]
    {
      assert Lookup([Some(x)], 0, a) == Lookup([Some(y)], 0, a);
    }
  }

  /** A canonical tree is determined by its table. */
  lemma SameTable(x: seq<Option<Group>>, y: seq<Option<Group>>)
    requires Canonical(x) && Canonical(y) && |x| == |y|
    requires forall n: nat, a: nat :: Lookup(x, n, a) == Lookup(y, n, a)
    ensures x == y
  {
    forall n | 0 <= n < |x|
      ensures x[n] == y[n]
    {
      if x[n].Some? {
        assert Lookup(x, n, |x[n].value.alternates| - 1).Some?;
      }
      if y[n].Some? {
        assert Lookup(y, n, |y[n].value.alternates| - 1).Some?;
      }
      if x[n].Some? {
        forall a: nat
          ensures Lookup([Some(x[n].value)], 0, a) == Lookup([Some(y[n].value)], 0, a)
        {
          assert Lookup(x, n, a) == Lookup(y, n, a);
        }
        SameAlternates(x[n].value, y[n].value);
      }
    }
  }

  // ----- The interfaces of a tree, in printing order, give its table -----

  lemma {:induction false} FindAppend(x: seq<Interface>, y: seq<Interface>, n: nat, a: nat)
    ensures Find(x + y, n, a) == if Find(y, n, a).Some? then Find(y, n, a) else Find(x, n, a)
  {
    if y == [] {
      assert x + y == x;
    } else {
      assert (x + y)[..|x + y| - 1] == x + y[..|y| - 1];
      FindAppend(x, y[..|y| - 1], n, a);
    }
  }

  predicate KeyedGroup(alternates: seq<Option<Interface>>, n: nat, from: nat) {
    forall k :: 0 <= k < |alternates| && alternates[k].Some? ==>
      alternates[k].value.Number() == n && alternates[k].value.Alternate() == from + k
  }

  /** Every interface sits where its descriptor says. */
  predicate Keyed(gs: seq<Option<Group>>, from: nat) {
    forall n :: 0 <= n < |gs| && gs[n].Some? ==> KeyedGroup(gs[n].value.alternates, from + n, 0)
  }

  lemma {:induction false} FindInGroup(alternates: seq<Option<Interface>>, m: nat, from: nat, n: nat, a: nat)
    requires KeyedGroup(alternates, m, from)
    ensures Find(Present(alternates), n, a)
            == if n == m && from <= a < from + |alternates| then alternates[a - from] else None
  {
    if alternates != [] {
      var rest := alternates[1..];
      assert KeyedGroup(rest, m, from + 1) by {
        assert forall k :: 0 <= k < |rest| ==> rest[k] == alternates[k + 1];
      }
      FindInGroup(rest, m, from + 1, n, a);
      var first := if alternates[0].Some? then [alternates[0].value] else [];
      FindAppend(first, Present(rest), n, a);
      assert first != [] ==> first[..0] == [];
    }
  }

  lemma {:induction false} FindInGroups(gs: seq<Option<Group>>, from: nat, n: nat, a: nat)
    requires Keyed(gs, from)
    ensures Find(InGroups(gs), n, a) == if from <= n then Lookup(gs, n - from, a) else None
  {
    if gs != [] {
      var rest := gs[1..];
      assert Keyed(rest, from + 1) by {
        assert forall k :: 0 <= k < |rest| ==> rest[k] == gs[k + 1];
      }
      hide Find, Keyed, InGroup;
      FindInGroups(rest, from + 1, n, a);
      FindAppend(InGroup(gs[0]), InGroups(rest), n, a);
      FindInFirst(gs[0], from, n, a);
    }
  }

  lemma FindInFirst(g: Option<Group>, m: nat, n: nat, a: nat)
    requires g.Some? ==> KeyedGroup(g.value.alternates, m, 0)
    ensures Find(InGroup(g), n, a) == if n == m then Lookup([g], 0, a) else None
  {
    if g.Some? {
      FindInGroup(g.value.alternates, m, 0, n, a);
    }
  }

  lemma {:induction false} KeyedNumbers(gs: seq<Option<Group>>, from: nat)
    requires Keyed(gs, from)
    ensures forall i :: i in InGroups(gs) ==> from <= i.Number() < from + |gs|
  {
    if gs != [] {
      var rest := gs[1..];
      assert Keyed(rest, from + 1) by {
        assert forall k :: 0 <= k < |rest| ==> rest[k] == gs[k + 1];
      }
      KeyedNumbers(rest, from + 1);
      if gs[0].Some? {
        PresentOnly(gs[0].value.alternates);
      }
    }
  }

  lemma {:induction false} PresentOnly<T>(xs: seq<Option<T>>)
    ensures forall x :: x in Present(xs) ==> Some(x) in xs
  {
    if xs != [] {
      PresentOnly(xs[1..]);
    }
  }

  /** Adding the interfaces of a tree one by one, in printing order, rebuilds the tree. */
  lemma RebuildGroups(gs: seq<Option<Group>>)
    requires Canonical(gs) && Keyed(gs, 0)
    ensures forall k :: 0 <= k < |InGroups(gs)| ==> InGroups(gs)[k].Number() < |gs|
    ensures AddAll(Blank(|gs|), InGroups(gs)) == gs
  {
    hide Canonical, Keyed, Lookup, InGroups, AddAll;
    KeyedNumbers(gs, 0);
    var built := AddAll(Blank(|gs|), InGroups(gs));
    forall n: nat, a: nat
      ensures Lookup(built, n, a) == Lookup(gs, n, a)
    {
      RebuiltLookup(gs, n, a);
    }
    RebuiltLookup(gs, 0, 0);
    SameTable(built, gs);
  }

  lemma RebuiltLookup(gs: seq<Option<Group>>, n: nat, a: nat)
    requires Canonical(gs) && Keyed(gs, 0)
    requires forall k :: 0 <= k < |InGroups(gs)| ==> InGroups(gs)[k].Number() < |gs|
    ensures var built := AddAll(Blank(|gs|), InGroups(gs));
            Canonical(built) && Lookup(built, n, a) == Lookup(gs, n, a)
  {
    hide Find, AddAll, InGroups, Keyed;
    AddAllLookup(Blank(|gs|), InGroups(gs), n, a);
    FindInGroups(gs, 0, n, a);
    BlankLookup(|gs|, n, a);
  }

  lemma BlankLookup(m: nat, n: nat, a: nat)
    ensures Canonical(Blank(m)) && Lookup(Blank(m), n, a) == None
  {}
}

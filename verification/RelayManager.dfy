/** The Manager's sixteen slots of readers, writers, threads and endpoints (Manager.cpp). */
module RelayManager {
  import opened Common
  import opened RelaySlots

  /** An endpoint of the active configuration: its address and attribute bytes. */
  datatype EndpointRef = EndpointRef(address: byte, attributes: byte)

  /** One of the first k endpoints is relayed in slot n of the IN or the OUT table; isochronous ones are not relayed. */
  predicate Listed(endpoints: seq<EndpointRef>, k: nat, n: nat, inbound: bool)
    requires k <= |endpoints|
  {
    exists i :: 0 <= i < k && endpoints[i].attributes % 4 != 1 && endpoints[i].address % 16 == n
                && (endpoints[i].address >= 0x80 <==> inbound)
  }

  /** The workers of the slots 1 to 15 whose endpoint is set. */
  function Wanted(inEndpoints: seq<bool>, outEndpoints: seq<bool>): (r: seq<bool>)
    requires |inEndpoints| == |outEndpoints| == SLOTS
    ensures |r| == WORKERS
  {
    seq(WORKERS, w requires 0 <= w < WORKERS => w >= 4 && if w % 4 < 2 then inEndpoints[w / 4] else outEndpoints[w / 4])
  }

  lemma ListedNext(endpoints: seq<EndpointRef>, k: nat)
    requires k < |endpoints|
    ensures var e := endpoints[k];
            forall n: nat, inbound :: Listed(endpoints, k + 1, n, inbound) <==>
              Listed(endpoints, k, n, inbound)
              || (e.attributes % 4 != 1 && e.address % 16 == n && (e.address >= 0x80 <==> inbound))
  {
    hide Listed;
    var e := endpoints[k];
    forall n: nat, inbound
      ensures Listed(endpoints, k + 1, n, inbound) <==>
                Listed(endpoints, k, n, inbound)
                || (e.attributes % 4 != 1 && e.address % 16 == n && (e.address >= 0x80 <==> inbound))
    {
      OneMoreListed(endpoints, k, n, inbound);
    }
  }

  lemma OneMoreListed(endpoints: seq<EndpointRef>, k: nat, n: nat, inbound: bool)
    requires k < |endpoints|
    ensures var e := endpoints[k];
            Listed(endpoints, k + 1, n, inbound) <==>
              Listed(endpoints, k, n, inbound)
              || (e.attributes % 4 != 1 && e.address % 16 == n && (e.address >= 0x80 <==> inbound))
  {
    if Listed(endpoints, k + 1, n, inbound) {
      var i :| 0 <= i < k + 1 && endpoints[i].attributes % 4 != 1 && endpoints[i].address % 16 == n
        && (endpoints[i].address >= 0x80 <==> inbound);
    }
  }

  lemma WantedInSlot(inEndpoints: seq<bool>, outEndpoints: seq<bool>, n: nat)
    requires |inEndpoints| == |outEndpoints| == SLOTS && 1 <= n < SLOTS
    ensures var wanted := Wanted(inEndpoints, outEndpoints);
            && wanted[4 * n] == wanted[4 * n + 1] == inEndpoints[n]
            && wanted[4 * n + 2] == wanted[4 * n + 3] == outEndpoints[n]
  {
    OneOfFour(n, 0);
    OneOfFour(n, 1);
    OneOfFour(n, 2);
    OneOfFour(n, 3);
  }

  /** In each slot from 1 on IN workers were added if there is an IN endpoint, OUT workers if there is an OUT one. */
  predicate InSlots(before: seq<bool>, after: seq<bool>, inEndpoints: seq<bool>, outEndpoints: seq<bool>)
    requires |inEndpoints| == |outEndpoints| == SLOTS && |before| == |after| == WORKERS
  {
    forall n :: 1 <= n < SLOTS ==>
      && after[4 * n] == (before[4 * n] || inEndpoints[n])
      && after[4 * n + 1] == (before[4 * n + 1] || inEndpoints[n])
      && after[4 * n + 2] == (before[4 * n + 2] || outEndpoints[n])
      && after[4 * n + 3] == (before[4 * n + 3] || outEndpoints[n])
  }

  lemma MadeInSlots(before: seq<bool>, after: seq<bool>, inEndpoints: seq<bool>, outEndpoints: seq<bool>)
    requires |inEndpoints| == |outEndpoints| == SLOTS && |before| == |after| == WORKERS
    requires forall w :: 0 <= w < WORKERS ==> after[w] == (before[w] || Wanted(inEndpoints, outEndpoints)[w])
    ensures InSlots(before, after, inEndpoints, outEndpoints)
  {
    hide Wanted;
    forall n | 1 <= n < SLOTS
      ensures Wanted(inEndpoints, outEndpoints)[4 * n] == Wanted(inEndpoints, outEndpoints)[4 * n + 1] == inEndpoints[n]
      ensures Wanted(inEndpoints, outEndpoints)[4 * n + 2] == Wanted(inEndpoints, outEndpoints)[4 * n + 3]
           == outEndpoints[n]
    {
      WantedInSlot(inEndpoints, outEndpoints, n);
    }
  }

  lemma OneOfFour(n: nat, k: nat)
    requires k < 4
    ensures (4 * n + k) / 4 == n && (4 * n + k) % 4 == k
  {}

  /**
   From slot 1 on, the IN reader and the IN writer of a slot run exactly if they ran before, if the slot held an IN
   endpoint before or if one is listed that is not isochronous; and likewise the OUT reader and the OUT writer.
   */
  predicate RunFor(endpoints: seq<EndpointRef>, in0: seq<bool>, out0: seq<bool>, t0: seq<bool>, t1: seq<bool>)
    requires |in0| == |out0| == SLOTS && |t0| == |t1| == WORKERS
  {
    forall n :: 1 <= n < SLOTS ==>
      var ins := in0[n]
        || exists i :: 0 <= i < |endpoints| && endpoints[i].address >= 0x80 && endpoints[i].address % 16 == n
                       && endpoints[i].attributes % 4 != 1;
      var outs := out0[n]
        || exists i :: 0 <= i < |endpoints| && endpoints[i].address < 0x80 && endpoints[i].address % 16 == n
                       && endpoints[i].attributes % 4 != 1;
      && t1[4 * n] == (t0[4 * n] || ins)
      && t1[4 * n + 1] == (t0[4 * n + 1] || ins)
      && t1[4 * n + 2] == (t0[4 * n + 2] || outs)
      && t1[4 * n + 3] == (t0[4 * n + 3] || outs)
  }

  /** Which workers run in each slot after the wanted ones were launched, from the endpoints themselves. */
  lemma SlotsRun(endpoints: seq<EndpointRef>, in0: seq<bool>, out0: seq<bool>, in1: seq<bool>, out1: seq<bool>,
                 t0: seq<bool>, t1: seq<bool>)
    requires |in0| == |out0| == |in1| == |out1| == SLOTS && |t0| == |t1| == WORKERS
    requires forall n :: 0 <= n < SLOTS ==> (in1[n] <==> in0[n] || Listed(endpoints, |endpoints|, n, true))
    requires forall n :: 0 <= n < SLOTS ==> (out1[n] <==> out0[n] || Listed(endpoints, |endpoints|, n, false))
    requires forall w :: 0 <= w < WORKERS ==> t1[w] == (t0[w] || Wanted(in1, out1)[w])
    ensures RunFor(endpoints, in0, out0, t0, t1)
  {
    hide Wanted;
    forall n | 1 <= n < SLOTS
      ensures in1[n] == Wanted(in1, out1)[4 * n] == Wanted(in1, out1)[4 * n + 1]
      ensures out1[n] == Wanted(in1, out1)[4 * n + 2] == Wanted(in1, out1)[4 * n + 3]
    {
      WantedInSlot(in1, out1, n);
    }
  }

  class Manager {
    var status: Status
    var injectorCount: nat
    var injectorThreads: nat
    const objects: array<bool>
    const threads: array<bool>
    const inEndpoints: array<bool>
    const outEndpoints: array<bool>
    ghost var log: seq<Action>
    /** How often stop_relaying has been called. */
    ghost var stopCalls: nat

    ghost predicate Separate() {
      objects.Length == threads.Length == WORKERS && inEndpoints.Length == outEndpoints.Length == SLOTS
      && objects != threads && objects != inEndpoints && objects != outEndpoints
      && threads != inEndpoints && threads != outEndpoints && inEndpoints != outEndpoints
    }

    /**
     Everything done so far was allowed, and the arrays show the result; every joinable thread has its object;
     a data worker has a thread from the moment its object exists, and its endpoint is set.
     */
    ghost predicate Valid()
      reads this, objects, threads, inEndpoints, outEndpoints
    {
      Separate()
      && Play(Nobody(WORKERS), log) == Some(Workers(objects[..], threads[..]))
      && Backed(objects[..], threads[..])
      && injectorThreads <= injectorCount
      && (forall w :: 4 <= w < WORKERS ==> objects[w] == threads[w])
      && (forall w :: 4 <= w < WORKERS && objects[w] ==> Wanted(inEndpoints[..], outEndpoints[..])[w])
    }

    /** No object, thread or endpoint in any slot, and no injector thread. */
    ghost predicate Quiet()
      reads this, objects, threads, inEndpoints, outEndpoints
      requires Separate()
    {
      (forall w :: 0 <= w < WORKERS ==> !objects[w] && !threads[w])
      && (forall i :: 0 <= i < SLOTS ==> !inEndpoints[i] && !outEndpoints[i])
      && injectorThreads == 0
    }

    constructor (injectors: nat)
      ensures Valid() && Quiet() && status == Idle && log == [] && injectorCount == injectors && stopCalls == 0
      ensures fresh(objects) && fresh(threads) && fresh(inEndpoints) && fresh(outEndpoints)
    {
      status := Idle;
      injectorCount, injectorThreads := injectors, 0;
      objects := new bool[WORKERS](_ => false);
      threads := new bool[WORKERS](_ => false);
      inEndpoints := new bool[SLOTS](_ => false);
      outEndpoints := new bool[SLOTS](_ => false);
      log, stopCalls := [], 0;
      new;
      assert Workers(objects[..], threads[..]) == Nobody(WORKERS);
    }

    /** Joins and deletes worker w. */
    method FinishWorker(w: nat)
      requires Separate() && w < WORKERS
      modifies this`log, objects, threads
      ensures log == old(log) + Finish(old(objects[w]), old(threads[w]), w)
      ensures forall j :: 0 <= j < WORKERS ==> objects[j] == (j != w && old(objects[j]))
      ensures forall j :: 0 <= j < WORKERS ==> threads[j] == (!(j == w && old(objects[w])) && old(threads[j]))
    {
      if objects[w] {
        if threads[w] {
          log := log + [Join(w)];
          threads[w] := false;
        }
        log := log + [Delete(w)];
        objects[w] := false;
      }
    }

    /** Joins and deletes a reader and its writer. */
    method FinishPair(k: nat, ghost o: seq<bool>, ghost t: seq<bool>)
      requires Separate() && k + 2 <= WORKERS && Backed(o, t) && |o| == WORKERS
      requires forall w :: k <= w < WORKERS ==> objects[w] == o[w] && threads[w] == t[w]
      modifies this`log, objects, threads
      ensures log + Finishes(o, t, k + 2) == old(log) + Finishes(o, t, k)
      ensures forall w :: 0 <= w < WORKERS ==> objects[w] == if k <= w < k + 2 then false else old(objects[w])
      ensures forall w :: 0 <= w < WORKERS ==> threads[w] == if k <= w < k + 2 then false else old(threads[w])
    {
      hide Finish, Finishes;
      FinishWorker(k);
      FinishWorker(k + 1);
      FinishesTwo(o, t, k);
    }

    method AskAll()
      requires Separate()
      modifies this`log
      ensures log == old(log) + Injectors(InjectorRequest, 0, injectorCount) + Each(Request, threads[..], 0)
    {
      ghost var goal := old(log) + Injectors(InjectorRequest, 0, injectorCount);
      for n := 0 to injectorCount
        invariant log + Injectors(InjectorRequest, n, injectorCount) == goal
      {
        log := log + [AskInjector(n)];
        assert log + Injectors(InjectorRequest, n + 1, injectorCount) == goal;
      }
      for w := 0 to WORKERS
        invariant log + Each(Request, threads[..], w) == goal + Each(Request, threads[..], 0)
      {
        if threads[w] {
          log := log + [Ask(w)];
        }
      }
    }

    method StopRelaying()
      requires Valid()
      modifies this, objects, threads, inEndpoints, outEndpoints
      ensures Valid()
      ensures injectorCount == old(injectorCount) && stopCalls == old(stopCalls) + 1
      ensures old(status) == Setup ==> status == SetupAbort
      ensures old(status) != Relaying && old(status) != SetupAbort ==>
        objects[..] == old(objects[..]) && threads[..] == old(threads[..]) && log == old(log)
        && inEndpoints[..] == old(inEndpoints[..]) && outEndpoints[..] == old(outEndpoints[..])
        && injectorThreads == old(injectorThreads) && (old(status) != Setup ==> status == old(status))
      ensures old(status) == Relaying || old(status) == SetupAbort ==>
        status == Idle && Quiet()
        && log == old(log) + StopActions(injectorCount, old(injectorThreads), old(objects[..]), old(threads[..]))
    {
      hide Play, Injectors, Each, Finishes;
      stopCalls := stopCalls + 1;
      if status == Setup {
        status := SetupAbort;
        return;
      }
      if status != Relaying && status != SetupAbort {
        return;
      }
      status := Stopping;
      AskAll();
      JoinInjectors();
      FinishAll();
      status := Idle;
      StopIsAllowed(injectorCount, old(injectorThreads), old(objects[..]), old(threads[..]));
      ghost var l := StopActions(injectorCount, old(injectorThreads), old(objects[..]), old(threads[..]));
      assert log == old(log) + l;
      PlayAppend(Nobody(WORKERS), old(log), l);
      assert Workers(objects[..], threads[..]) == Nobody(WORKERS);
    }

    method JoinInjectors()
      modifies this`log, this`injectorThreads
      ensures log == old(log) + Injectors(InjectorJoin, 0, old(injectorThreads))
      ensures injectorThreads == 0
    {
      ghost var goal := log + Injectors(InjectorJoin, 0, injectorThreads);
      for n := 0 to injectorThreads
        invariant injectorThreads == old(injectorThreads)
        invariant log + Injectors(InjectorJoin, n, injectorThreads) == goal
      {
        log := log + [JoinInjector(n)];
        assert log + Injectors(InjectorJoin, n + 1, injectorThreads) == goal;
      }
      injectorThreads := 0;
    }

    /** The slots below i hold nothing any more, the others what the snapshots say. */
    ghost predicate Cleared(i: nat, o: seq<bool>, t: seq<bool>)
      requires Separate() && |o| == |t| == WORKERS
      reads objects, threads, inEndpoints, outEndpoints
    {
      && (forall w :: 0 <= w < WORKERS ==> objects[w] == (w >= 4 * i && o[w]) && threads[w] == (w >= 4 * i && t[w]))
      && (forall j :: 0 <= j < SLOTS && j < i ==> !inEndpoints[j] && !outEndpoints[j])
    }

    /** Waits for every thread, and deletes every object. */
    method FinishAll()
      requires Separate() && Backed(objects[..], threads[..])
      modifies this`log, objects, threads, inEndpoints, outEndpoints
      ensures log == old(log) + Finishes(old(objects[..]), old(threads[..]), 0)
      ensures forall w :: 0 <= w < WORKERS ==> !objects[w] && !threads[w]
      ensures forall i :: 0 <= i < SLOTS ==> !inEndpoints[i] && !outEndpoints[i]
    {
      ghost var o, t := objects[..], threads[..];
      NothingCleared();
      assert Finishes(o, t, WORKERS) == [];
      hide Finishes, Cleared;
      for i := 0 to SLOTS
        invariant log + Finishes(o, t, 4 * i) == old(log) + Finishes(o, t, 0)
        invariant Cleared(i, o, t)
      {
        FinishSlot(i, o, t);
      }
      AllCleared(o, t);
    }

    lemma NothingCleared()
      requires Separate()
      ensures Cleared(0, objects[..], threads[..])
    {}

    lemma AllCleared(o: seq<bool>, t: seq<bool>)
      requires Separate() && |o| == |t| == WORKERS && Cleared(SLOTS, o, t)
      ensures forall w :: 0 <= w < WORKERS ==> !objects[w] && !threads[w]
      ensures forall i :: 0 <= i < SLOTS ==> !inEndpoints[i] && !outEndpoints[i]
    {}

    /** The endpoints and the workers of one slot. */
    method FinishSlot(i: nat, ghost o: seq<bool>, ghost t: seq<bool>)
      requires Separate() && i < SLOTS && Backed(o, t) && |o| == WORKERS && Cleared(i, o, t)
      modifies this`log, objects, threads, inEndpoints, outEndpoints
      ensures log + Finishes(o, t, 4 * (i + 1)) == old(log) + Finishes(o, t, 4 * i)
      ensures Cleared(i + 1, o, t)
    {
      hide Finishes;
      inEndpoints[i] := false;
      FinishPair(4 * i, o, t);
      outEndpoints[i] := false;
      FinishPair(4 * i + 2, o, t);
    }

    // ----- Data endpoints -----

    /** Fills the endpoint tables, in the order the configuration lists its endpoints. */
    method Enumerate(endpoints: seq<EndpointRef>)
      requires Separate()
      modifies inEndpoints, outEndpoints
      ensures forall n :: 0 <= n < SLOTS ==>
        (inEndpoints[n] <==> old(inEndpoints[n]) || Listed(endpoints, |endpoints|, n, true))
      ensures forall n :: 0 <= n < SLOTS ==>
        (outEndpoints[n] <==> old(outEndpoints[n]) || Listed(endpoints, |endpoints|, n, false))
    {
      for k := 0 to |endpoints|
        invariant forall n :: 0 <= n < SLOTS ==>
          (inEndpoints[n] <==> old(inEndpoints[n]) || Listed(endpoints, k, n, true))
        invariant forall n :: 0 <= n < SLOTS ==>
          (outEndpoints[n] <==> old(outEndpoints[n]) || Listed(endpoints, k, n, false))
      {
        var e := endpoints[k];
        ListedNext(endpoints, k);
        if e.attributes % 4 != 1 {
          if e.address >= 0x80 {
            inEndpoints[e.address % 16] := true;
          } else {
            outEndpoints[e.address % 16] := true;
          }
        }
      }
    }

    /** A reader and a writer for every endpoint in the tables. */
    method MakeWorkers(ghost wanted: seq<bool>)
      requires Separate() && wanted == Wanted(inEndpoints[..], outEndpoints[..])
      modifies this`log, objects
      ensures InSlots(old(objects[..]), objects[..], inEndpoints[..], outEndpoints[..])
      ensures log == old(log) + Each(Creation, wanted, 0)
      ensures forall w :: 0 <= w < WORKERS ==> objects[w] == (old(objects[w]) || wanted[w])
    {
      hide Each, InSlots;
      SkipEp0(Creation, wanted);
      for w := 4 to WORKERS
        invariant log + Each(Creation, wanted, w) == old(log) + Each(Creation, wanted, 0)
        invariant forall j :: 0 <= j < WORKERS ==> objects[j] == (old(objects[j]) || (j < w && wanted[j]))
      {
        EachStep(Creation, wanted, w);
        var present := if w % 4 < 2 then inEndpoints[w / 4] else outEndpoints[w / 4];
        assert wanted[w] == present;
        if present {
          objects[w] := true;
          log := log + [Make(w)];
        }
      }
      MadeInSlots(old(objects[..]), objects[..], inEndpoints[..], outEndpoints[..]);
    }

    /** Assigning a thread where a joinable one sits ends the process. */
    method LaunchWorkers(ghost made: seq<bool>) returns (terminated: bool)
      requires Separate() && |made| == WORKERS
      requires forall w :: 0 <= w < WORKERS ==> made[w] == (w >= 4 && objects[w])
      modifies this`log, threads
      ensures terminated <==> exists w :: 4 <= w < WORKERS && objects[w] && old(threads[w])
      ensures !terminated ==>
        log == old(log) + Each(Launching, made, 0)
        && forall w :: 0 <= w < WORKERS ==> threads[w] == (old(threads[w]) || made[w])
    {
      hide Each;
      SkipEp0(Launching, made);
      for w := 4 to WORKERS
        invariant forall j :: 4 <= j < w ==> !(objects[j] && old(threads[j]))
        invariant log + Each(Launching, made, w) == old(log) + Each(Launching, made, 0)
        invariant forall j :: 0 <= j < WORKERS ==> threads[j] == (old(threads[j]) || (j < w && made[j]))
      {
        EachStep(Launching, made, w);
        if objects[w] {
          if threads[w] {
            return true;
          }
          threads[w] := true;
          log := log + [Launch(w)];
        }
      }
      return false;
    }

    /**
     Starts a reader and a writer for every endpoint. The process ends exactly when a data worker of an earlier
     SET_CONFIGURATION of the session still has its thread; otherwise precisely the wanted workers are started.
     */
    method StartDataRelaying(endpoints: seq<EndpointRef>) returns (terminated: bool)
      requires Valid()
      modifies this`log, objects, threads, inEndpoints, outEndpoints
      ensures terminated <==> exists w :: 4 <= w < WORKERS && old(threads[w])
      ensures !terminated ==>
        RunFor(endpoints, old(inEndpoints[..]), old(outEndpoints[..]), old(threads[..]), threads[..])
      ensures Filled(endpoints, old(inEndpoints[..]), old(outEndpoints[..]))
      ensures !terminated ==> Started(old(log), old(objects[..]), old(threads[..]))
    {
      hide Filled, Started, Listed, Wanted, RunFor;
      ghost var in0, out0, t := inEndpoints[..], outEndpoints[..], threads[..];
      terminated := StartWanted(endpoints);
      if !terminated {
        ThreadsStarted(old(log), old(objects[..]), t);
        TablesFilled(endpoints, in0, out0);
        SlotsRun(endpoints, in0, out0, inEndpoints[..], outEndpoints[..], t, threads[..]);
      }
    }

    /** The tables hold what they held before and the listed endpoints. */
    ghost predicate Filled(endpoints: seq<EndpointRef>, in0: seq<bool>, out0: seq<bool>)
      reads inEndpoints, outEndpoints
      requires |in0| == |out0| == inEndpoints.Length == outEndpoints.Length
    {
      forall n :: 0 <= n < |in0| ==>
        (inEndpoints[n] <==> in0[n] || Listed(endpoints, |endpoints|, n, true))
        && (outEndpoints[n] <==> out0[n] || Listed(endpoints, |endpoints|, n, false))
    }

    lemma TablesFilled(endpoints: seq<EndpointRef>, in0: seq<bool>, out0: seq<bool>)
      requires |in0| == |out0| == inEndpoints.Length == outEndpoints.Length && Filled(endpoints, in0, out0)
      ensures forall n :: 0 <= n < |in0| ==> (inEndpoints[n] <==> in0[n] || Listed(endpoints, |endpoints|, n, true))
      ensures forall n :: 0 <= n < |in0| ==> (outEndpoints[n] <==> out0[n] || Listed(endpoints, |endpoints|, n, false))
    {}

    /** The wanted workers were made and launched, in this order. */
    ghost predicate Started(log0: seq<Action>, objects0: seq<bool>, threads0: seq<bool>)
      reads this, objects, threads, inEndpoints, outEndpoints
      requires |objects0| == |threads0| == WORKERS
    {
      Valid()
      && var wanted := Wanted(inEndpoints[..], outEndpoints[..]);
      && log == log0 + Each(Creation, wanted, 0) + Each(Launching, wanted, 0)
      && (forall w :: 0 <= w < WORKERS ==> objects[w] == (objects0[w] || wanted[w]))
      && (forall w :: 0 <= w < WORKERS ==> threads[w] == (threads0[w] || wanted[w]))
    }

    lemma ThreadsStarted(log0: seq<Action>, objects0: seq<bool>, threads0: seq<bool>)
      requires |objects0| == |threads0| == WORKERS && Started(log0, objects0, threads0)
      ensures Valid()
      ensures forall w :: 0 <= w < WORKERS ==>
                threads[w] == (threads0[w] || Wanted(inEndpoints[..], outEndpoints[..])[w])
    {}

    method StartWanted(endpoints: seq<EndpointRef>) returns (terminated: bool)
      requires Valid()
      modifies this`log, objects, threads, inEndpoints, outEndpoints
      ensures terminated <==> exists w :: 4 <= w < WORKERS && old(threads[w])
      ensures Filled(endpoints, old(inEndpoints[..]), old(outEndpoints[..]))
      ensures !terminated ==> Started(old(log), old(objects[..]), old(threads[..]))
    {
      hide Play, Each, Listed, InSlots;
      ghost var o, t := objects[..], threads[..];
      Enumerate(endpoints);
      ghost var wanted := Wanted(inEndpoints[..], outEndpoints[..]);
      MakeWorkers(wanted);
      ghost var made := objects[..];
      terminated := LaunchWorkers(wanted);
      if !terminated {
        DataWorkersPlay(o, t, made, threads[..], wanted);
        PlayAppend(Nobody(WORKERS), old(log), Each(Creation, wanted, 0) + Each(Launching, wanted, 0));
        assert log == old(log) + (Each(Creation, wanted, 0) + Each(Launching, wanted, 0));
      }
    }

    // ----- EP0 -----

    /** How often a start looks at the status before it reports that it relays. */
    function Checks(filters: nat): nat
      reads this
    {
      4 + filters + 2 * injectorCount
    }

    /** The EP0 objects are made, `n` injector threads run, and no other worker exists. */
    ghost predicate SetUp(before: seq<Action>, n: nat)
      reads this, objects, threads, inEndpoints, outEndpoints
    {
      Valid() && injectorThreads == n <= injectorCount
      && log == before + [Make(EP0_READER), Make(EP0_WRITER)] + Injectors(InjectorLaunch, 0, n)
      && (forall w :: 0 <= w < WORKERS ==> !threads[w] && objects[w] == (w == EP0_READER || w == EP0_WRITER))
      && (forall i :: 0 <= i < SLOTS ==> !inEndpoints[i] && outEndpoints[i] == (i == 0))
    }

    /** Another thread calls stop_relaying here. */
    method Interfere(here: bool)
      requires Valid() && status == Setup
      modifies this, objects, threads, inEndpoints, outEndpoints
      ensures Valid() && status == (if here then SetupAbort else Setup)
      ensures objects[..] == old(objects[..]) && threads[..] == old(threads[..]) && log == old(log)
      ensures inEndpoints[..] == old(inEndpoints[..]) && outEndpoints[..] == old(outEndpoints[..])
      ensures injectorThreads == old(injectorThreads) && injectorCount == old(injectorCount)
      ensures stopCalls == old(stopCalls) + One(here)
    {
      if here {
        StopRelaying();
      }
    }

    method MakeEp0()
      requires Valid() && Quiet()
      modifies this`log, objects, outEndpoints
      ensures SetUp(old(log), 0)
    {
      objects[EP0_READER] := true;
      objects[EP0_WRITER] := true;
      outEndpoints[0] := true;
      ghost var l := [Make(EP0_READER), Make(EP0_WRITER)];
      log := log + l;
      Ep0Made(old(objects[..]), objects[..], threads[..]);
      PlayAppend(Nobody(WORKERS), old(log), l);
      assert Injectors(InjectorLaunch, 0, 0) == [];
    }

    method LaunchEp0(w: nat)
      requires Valid() && (w == EP0_READER || w == EP0_WRITER) && objects[w] && !threads[w]
      modifies this`log, threads
      ensures Valid() && log == old(log) + [Launch(w)] && threads[..] == old(threads[..])[w := true]
    {
      hide Play;
      threads[w] := true;
      log := log + [Launch(w)];
      LaunchPlays(objects[..], old(threads[..]), w);
      PlayAppend(Nobody(WORKERS), old(log), [Launch(w)]);
      assert threads[..] == old(threads[..])[w := true];
    }

    method LaunchOneInjector(ghost before: seq<Action>)
      requires SetUp(before, injectorThreads) && injectorThreads < injectorCount
      modifies this`log, this`injectorThreads
      ensures injectorThreads == old(injectorThreads) + 1 && SetUp(before, injectorThreads)
    {
      hide Play;
      log := log + [LaunchInjector(injectorThreads)];
      InjectorLast(InjectorLaunch, 0, injectorThreads);
      InjectorPlays(Workers(objects[..], threads[..]), injectorThreads);
      PlayAppend(Nobody(WORKERS), old(log), [LaunchInjector(injectorThreads)]);
      injectorThreads := injectorThreads + 1;
    }

    /** The loop over the filters, or over the injectors: a look at the status before each. */
    method PassChecks(ghost before: seq<Action>, first: nat, count: nat, abortAt: nat) returns (going: bool)
      requires SetUp(before, 0) && status == Setup
      modifies this, objects, threads, inEndpoints, outEndpoints
      ensures injectorCount == old(injectorCount) && (going <==> !(first <= abortAt < first + count))
      ensures going ==> SetUp(before, 0) && status == Setup && stopCalls == old(stopCalls)
      ensures !going ==> Valid() && Quiet() && status == Idle
    {
      hide Play, Workers, Injectors;
      for i := 0 to count
        invariant SetUp(before, 0) && status == Setup && injectorCount == old(injectorCount)
        invariant stopCalls == old(stopCalls)
        invariant !(first <= abortAt < first + i)
      {
        Interfere(abortAt == first + i);
        if status != Setup {
          StopRelaying();
          return false;
        }
      }
      return true;
    }

    method StartInjectors(ghost before: seq<Action>, first: nat, abortAt: nat) returns (going: bool)
      requires SetUp(before, 0) && status == Setup
      modifies this, objects, threads, inEndpoints, outEndpoints
      ensures injectorCount == old(injectorCount) && (going <==> !(first <= abortAt < first + injectorCount))
      ensures going ==> SetUp(before, injectorCount) && status == Setup && stopCalls == old(stopCalls)
      ensures !going ==> Valid() && Quiet() && status == Idle
    {
      hide Play, Workers, Injectors;
      for i := 0 to injectorCount
        invariant SetUp(before, i) && status == Setup && injectorCount == old(injectorCount)
        invariant stopCalls == old(stopCalls)
        invariant !(first <= abortAt < first + i)
      {
        Interfere(abortAt == first + i);
        if status != Setup {
          StopRelaying();
          return false;
        }
        LaunchOneInjector(before);
      }
      return true;
    }

    /** From the connection to the host on. */
    method FinishStart(ghost before: seq<Action>, hostConnects: bool, first: nat, abortAt: nat)
      requires SetUp(before, injectorCount) && status == Setup
      modifies this, objects, threads, inEndpoints, outEndpoints
      ensures Valid() && injectorCount == old(injectorCount)
      ensures status == Relaying <==> hostConnects && abortAt != first && abortAt != first + 1
      ensures status == Relaying ==> stopCalls == old(stopCalls) + One(abortAt == first + 2)
      ensures status == Relaying ==>
        (forall w :: 0 <= w < WORKERS ==> objects[w] == threads[w] == (w == EP0_READER || w == EP0_WRITER))
        && (forall i :: 0 <= i < SLOTS ==> !inEndpoints[i] && outEndpoints[i] == (i == 0))
        && injectorThreads == injectorCount
        && log == old(log) + [Launch(EP0_READER), Launch(EP0_WRITER)]
      ensures status != Relaying ==> status == Idle && Quiet()
    {
      hide Play, Workers, Injectors;
      Interfere(abortAt == first);
      if !hostConnects {
        status := SetupAbort;
        StopRelaying();
        return;
      }
      LaunchEp0(EP0_READER);
      if status != Setup {
        status := SetupAbort;
        StopRelaying();
        return;
      }
      LaunchEp0(EP0_WRITER);
      Interfere(abortAt == first + 1);
      if status != Setup {
        StopRelaying();
        return;
      }
      Interfere(abortAt == first + 2);
      status := Relaying;
    }

    /**
     Starts EP0, while another thread calls stop_relaying just before check number `abortAt`. The start ends in
     relaying exactly when both proxies connect and the call does not come before a check; a call between the
     last check and the end is lost: it has been made, and the manager relays. Any other end leaves nothing behind.
     */
    method StartControlRelaying(deviceConnects: bool, hostConnects: bool, filters: nat, abortAt: nat)
      requires Valid() && Quiet()
      modifies this, objects, threads, inEndpoints, outEndpoints
      ensures Valid() && injectorCount == old(injectorCount)
      ensures status == Relaying <==> deviceConnects && hostConnects && abortAt >= Checks(filters)
      ensures status == Relaying ==> stopCalls == old(stopCalls) + One(abortAt == Checks(filters))
      ensures status == Relaying ==>
        (forall w :: 0 <= w < WORKERS ==> objects[w] == threads[w] == (w == EP0_READER || w == EP0_WRITER))
        && (forall i :: 0 <= i < SLOTS ==> !inEndpoints[i] && outEndpoints[i] == (i == 0))
        && injectorThreads == injectorCount
        && log == old(log) + [Make(EP0_READER), Make(EP0_WRITER)] + Injectors(InjectorLaunch, 0, injectorCount)
                  + [Launch(EP0_READER), Launch(EP0_WRITER)]
      ensures status != Relaying ==> status == Idle && Quiet()
    {
      hide Play, Workers, Injectors;
      status := Setup;
      Interfere(abortAt == 0);
      if !deviceConnects {
        status := Idle;
        return;
      }
      if status != Setup {
        StopRelaying();
        return;
      }
      Interfere(abortAt == 1);
      if status != Setup {
        StopRelaying();
        return;
      }
      MakeEp0();
      var going := PassChecks(old(log), 2, filters, abortAt);
      if going {
        going := PassChecks(old(log), 2 + filters, injectorCount, abortAt);
      }
      if going {
        going := StartInjectors(old(log), 2 + filters + injectorCount, abortAt);
      }
      if going {
        FinishStart(old(log), hostConnects, 2 + filters + 2 * injectorCount, abortAt);
      }
    }
  }

  /** A start while EP0 is served already is a defect: it makes a reader over the one that exists. */
  lemma StartingAgainIsADefect(o: seq<bool>, t: seq<bool>)
    requires |o| == |t| == WORKERS && o[EP0_READER]
    ensures Play(Workers(o, t), [Make(EP0_READER), Make(EP0_WRITER)]) == None
  {}

  /**
   A device with one bulk endpoint 0x81, configured twice in a session: the first time starts the IN reader and the
   IN writer of slot 1, the second time ends the process.
   */
  method ConfigureTwice() returns (first: bool, running: seq<bool>, second: bool)
    ensures !first && second && |running| == WORKERS
    ensures running[4] && running[5] && !running[6] && !running[7]
  {
    hide Play, Each, Injectors;
    var m := new Manager(0);
    m.StartControlRelaying(true, true, 0, 1000);
    var bulkIn := EndpointRef(0x81, 2);
    assert m.status == Relaying;
    assert forall w :: 4 <= w < WORKERS ==> !m.threads[w];
    first := m.StartDataRelaying([bulkIn]);
    assert [bulkIn][0].address % 16 == 1;
    running := m.threads[..];
    assert m.threads[4 * 1];
    second := m.StartDataRelaying([bulkIn]);
  }

  /**
   A call of stop_relaying that comes after the last check: the manager relays all the same. Workers 2 and 3 are
   the reader and the writer of EP0, in the OUT half of slot 0.
   */
  method LoseStop() returns (relays: bool, ghost calls: nat, ghost log: seq<Action>)
    ensures relays && calls == 1 && log == [Make(2), Make(3), Launch(2), Launch(3)]
  {
    var m := new Manager(0);
    m.StartControlRelaying(true, true, 0, 4);
    relays, calls, log := m.status == Relaying && m.threads[2] && m.threads[3], m.stopCalls, m.log;
  }

  lemma Ep0Made(o: seq<bool>, o': seq<bool>, t: seq<bool>)
    requires |o| == |o'| == |t| == WORKERS
    requires forall w :: 0 <= w < WORKERS ==> !o[w] && !t[w] && o'[w] == (w == EP0_READER || w == EP0_WRITER)
    ensures Play(Workers(o, t), [Make(EP0_READER), Make(EP0_WRITER)]) == Some(Workers(o', t))
  {
    var s := Workers(o, t);
    var u := s[EP0_READER := Made];
    var l := [Make(EP0_READER), Make(EP0_WRITER)];
    assert l[1..] == [Make(EP0_WRITER)] && l[1..][1..] == [];
    assert Play(u, l[1..]) == Some(u[EP0_WRITER := Made]);
    assert u[EP0_WRITER := Made] == Workers(o', t);
  }

  lemma LaunchPlays(o: seq<bool>, t: seq<bool>, w: nat)
    requires w < |o| == |t| && o[w] && !t[w]
    ensures Play(Workers(o, t), [Launch(w)]) == Some(Workers(o, t[w := true]))
  {
    var s := Workers(o, t);
    assert [Launch(w)][1..] == [];
    assert s[w := Running] == Workers(o, t[w := true]);
  }

  lemma InjectorPlays(s: seq<Worker>, n: nat)
    ensures Play(s, [LaunchInjector(n)]) == Some(s)
  {
    assert [LaunchInjector(n)][1..] == [];
  }

  lemma {:induction false} InjectorLast(kind: InjectorKind, lo: nat, hi: nat)
    requires lo <= hi
    ensures Injectors(kind, lo, hi + 1) == Injectors(kind, lo, hi) + [DoInjector(kind, hi)]
    decreases hi - lo
  {
    if lo < hi {
      InjectorLast(kind, lo + 1, hi);
    }
  }

  lemma EachStep(kind: Kind, flags: seq<bool>, k: nat)
    requires k < |flags|
    ensures Each(kind, flags, k) == (if flags[k] then [Do(kind, k)] else []) + Each(kind, flags, k + 1)
  {
  }

  lemma SkipEp0(kind: Kind, flags: seq<bool>)
    requires |flags| >= 4 && forall w :: 0 <= w < 4 ==> !flags[w]
    ensures Each(kind, flags, 0) == Each(kind, flags, 4) && Each(kind, flags, |flags|) == []
  {
    assert Each(kind, flags, 2) == Each(kind, flags, 4);
  }

  /** Creating and launching workers that did not exist is allowed. */
  lemma DataWorkersPlay(o: seq<bool>, t: seq<bool>, o': seq<bool>, t': seq<bool>, wanted: seq<bool>)
    requires Backed(o, t) && |o| == |o'| == |t'| == |wanted|
    requires forall w :: 0 <= w < |o| && wanted[w] ==> !o[w]
    requires forall w :: 0 <= w < |o| ==> o'[w] == (o[w] || wanted[w]) && t'[w] == (t[w] || wanted[w])
    ensures Play(Workers(o, t), Each(Creation, wanted, 0) + Each(Launching, wanted, 0)) == Some(Workers(o', t'))
  {
    hide Play, Each;
    var s := Workers(o, t);
    PlayEach(Creation, wanted, 0, s);
    PlayEach(Launching, wanted, 0, Changed(s, wanted, 0, Made));
    PlayAppend(s, Each(Creation, wanted, 0), Each(Launching, wanted, 0));
    assert Changed(Changed(s, wanted, 0, Made), wanted, 0, Running) == Workers(o', t');
  }
}

/** Starting and stopping the relay threads (Manager.cpp): sixteen slots of four workers each. */
module RelaySlots {
  import opened Common

  datatype Status = Idle | Setup | Relaying | Stopping | SetupAbort | Reset

  /**
   The workers of slot i are 4 * i + 0 to 4 * i + 3: IN reader, IN writer, OUT reader, OUT writer.
   `objects` says which reader and writer objects exist, `threads` which threads are joinable.
   */
  const SLOTS: nat := 16
  const WORKERS: nat := 64
  const EP0_READER: nat := 2
  const EP0_WRITER: nat := 3

  /** What is done to the workers and injectors, in order. */
  datatype Action =
    | LaunchInjector(n: nat) | AskInjector(n: nat) | JoinInjector(n: nat)
    | Make(worker: nat) | Launch(worker: nat) | Ask(worker: nat) | Join(worker: nat) | Delete(worker: nat)

  // ----- Which actions a worker allows -----

  datatype Worker = Absent | Made | Running | Asked | Joined

  /**
   The life of one worker. An action without a next state is a defect: launching over a joinable thread
   ends the process, making over an object loses it, joining a thread nobody asked to stop can wait for
   ever, and deleting an object whose thread runs leaves the thread with a dangling pointer.
   */
  function Move(w: Worker, a: Action): Option<Worker> {
    match (w, a)
    case (Absent, Make(_)) => Some(Made)
    case (Made, Launch(_)) => Some(Running)
    case (Running, Ask(_)) => Some(Asked)
    case (Asked, Join(_)) => Some(Joined)
    case (Joined, Delete(_)) => Some(Absent)
    case (Made, Delete(_)) => Some(Absent)
    case _ => None
  }

  predicate OnInjector(a: Action) { a.LaunchInjector? || a.AskInjector? || a.JoinInjector? }

  /** The workers after a sequence of actions, or None when one of them is a defect. */
  function Play(s: seq<Worker>, l: seq<Action>): Option<seq<Worker>>
    decreases |l|
  {
    if l == [] then Some(s)
    else if OnInjector(l[0]) then Play(s, l[1..])
    else if l[0].worker >= |s| then None
    else
      match Move(s[l[0].worker], l[0])
      case None => None
      case Some(w) => Play(s[l[0].worker := w], l[1..])
  }

  lemma {:induction false} PlayAppend(s: seq<Worker>, a: seq<Action>, b: seq<Action>)
    ensures Play(s, a + b) == (if Play(s, a).None? then None else Play(Play(s, a).value, b))
    decreases |a|
  {
    if a == [] {
      assert a + b == b;
    } else {
      assert (a + b)[0] == a[0] && (a + b)[1..] == a[1..] + b;
      if OnInjector(a[0]) {
        PlayAppend(s, a[1..], b);
      } else if a[0].worker < |s| {
        match Move(s[a[0].worker], a[0])
        case None =>
        case Some(w) => PlayAppend(s[a[0].worker := w], a[1..], b);
      }
    }
  }

  /** The workers as the arrays of objects and threads show them between calls. */
  function Workers(objects: seq<bool>, threads: seq<bool>): (s: seq<Worker>)
    requires |objects| == |threads|
    ensures |s| == |objects|
  {
    seq(|objects|, k requires 0 <= k < |objects| =>
      if !objects[k] then Absent else if threads[k] then Running else Made)
  }

  function Nobody(n: nat): (s: seq<Worker>)
    ensures |s| == n
  {
    seq(n, _ => Absent)
  }

  // ----- The same action on many workers -----

  datatype Kind = Creation | Launching | Request

  function Do(kind: Kind, w: nat): Action {
    match kind
    case Creation => Make(w)
    case Launching => Launch(w)
    case Request => Ask(w)
  }

  function Before(kind: Kind): Worker {
    match kind case Creation => Absent case Launching => Made case Request => Running
  }

  function After(kind: Kind): Worker {
    match kind case Creation => Made case Launching => Running case Request => Asked
  }

  /** One action for every flagged worker from k on, in the order of the slots. */
  function Each(kind: Kind, flags: seq<bool>, k: nat): seq<Action>
    requires k <= |flags|
    decreases |flags| - k
  {
    if k == |flags| then [] else (if flags[k] then [Do(kind, k)] else []) + Each(kind, flags, k + 1)
  }

  function Changed(s: seq<Worker>, flags: seq<bool>, k: nat, w: Worker): (r: seq<Worker>)
    requires |s| == |flags|
    ensures |r| == |s|
  {
    seq(|s|, j requires 0 <= j < |s| => if j >= k && flags[j] then w else s[j])
  }

  lemma PlayOne(kind: Kind, flags: seq<bool>, k: nat, s: seq<Worker>)
    requires k < |flags| == |s| && flags[k] && s[k] == Before(kind)
    ensures Play(s, Each(kind, flags, k)) == Play(s[k := After(kind)], Each(kind, flags, k + 1))
  {
    var l, rest := Each(kind, flags, k), Each(kind, flags, k + 1);
    assert l == [Do(kind, k)] + rest && l[1..] == rest;
  }

  lemma {:induction false} PlayEach(kind: Kind, flags: seq<bool>, k: nat, s: seq<Worker>)
    requires k <= |flags| == |s|
    requires forall j :: k <= j < |s| && flags[j] ==> s[j] == Before(kind)
    ensures Play(s, Each(kind, flags, k)) == Some(Changed(s, flags, k, After(kind)))
    decreases |flags| - k
  {
    hide Play, Before, After;
    if k == |flags| {
      PlayNothing(s);
      assert Changed(s, flags, k, After(kind)) == s;
    } else if flags[k] {
      var t := s[k := After(kind)];
      PlayEach(kind, flags, k + 1, t);
      PlayOne(kind, flags, k, s);
      assert Changed(t, flags, k + 1, After(kind)) == Changed(s, flags, k, After(kind));
    } else {
      PlayEach(kind, flags, k + 1, s);
      assert Each(kind, flags, k) == Each(kind, flags, k + 1);
      assert Changed(s, flags, k + 1, After(kind)) == Changed(s, flags, k, After(kind));
    }
  }

  // ----- The actions of a stop -----

  datatype InjectorKind = InjectorLaunch | InjectorRequest | InjectorJoin

  function DoInjector(kind: InjectorKind, n: nat): Action {
    match kind
    case InjectorLaunch => LaunchInjector(n)
    case InjectorRequest => AskInjector(n)
    case InjectorJoin => JoinInjector(n)
  }

  function Injectors(kind: InjectorKind, lo: nat, hi: nat): seq<Action>
    requires lo <= hi
    decreases hi - lo
  {
    if lo == hi then [] else [DoInjector(kind, lo)] + Injectors(kind, lo + 1, hi)
  }

  lemma {:induction false} PlayInjectors(s: seq<Worker>, kind: InjectorKind, lo: nat, hi: nat)
    requires lo <= hi
    ensures Play(s, Injectors(kind, lo, hi)) == Some(s)
    decreases hi - lo
  {
    if lo < hi {
      PlayInjectors(s, kind, lo + 1, hi);
      assert Injectors(kind, lo, hi)[1..] == Injectors(kind, lo + 1, hi);
    }
  }

  /** A worker's object is deleted, after its thread has been joined. */
  function Finish(made: bool, thread: bool, w: nat): seq<Action> {
    if !made then [] else if thread then [Join(w), Delete(w)] else [Delete(w)]
  }

  function Finishes(objects: seq<bool>, threads: seq<bool>, k: nat): seq<Action>
    requires k <= |objects| == |threads|
    decreases |objects| - k
  {
    if k == |objects| then [] else Finish(objects[k], threads[k], k) + Finishes(objects, threads, k + 1)
  }

  function StopActions(injectors: nat, injectorThreads: nat, objects: seq<bool>, threads: seq<bool>): seq<Action>
    requires |objects| == |threads|
  {
    Injectors(InjectorRequest, 0, injectors) + Each(Request, threads, 0)
    + Injectors(InjectorJoin, 0, injectorThreads) + Finishes(objects, threads, 0)
  }

  lemma FinishesTwo(objects: seq<bool>, threads: seq<bool>, k: nat)
    requires k + 2 <= |objects| == |threads|
    ensures Finishes(objects, threads, k)
         == Finish(objects[k], threads[k], k) + Finish(objects[k + 1], threads[k + 1], k + 1)
            + Finishes(objects, threads, k + 2)
  {
    hide Finish;
    assert Finishes(objects, threads, k + 1) == Finish(objects[k + 1], threads[k + 1], k + 1)
          + Finishes(objects, threads, k + 2);
  }

  predicate IsRequest(a: Action) { a.Ask? || a.AskInjector? }
  predicate IsJoin(a: Action) { a.Join? || a.JoinInjector? }

  /** Every thread that can be joined belongs to an object that exists. */
  predicate Backed(objects: seq<bool>, threads: seq<bool>) {
    |objects| == |threads| && forall k :: 0 <= k < |threads| && threads[k] ==> objects[k]
  }

  lemma {:induction false} InjectorActions(kind: InjectorKind, lo: nat, hi: nat)
    requires lo <= hi
    ensures forall a :: a in Injectors(kind, lo, hi) ==> exists n: nat :: lo <= n < hi && a == DoInjector(kind, n)
    ensures forall n: nat :: lo <= n < hi ==> DoInjector(kind, n) in Injectors(kind, lo, hi)
    decreases hi - lo
  {
    if lo < hi {
      InjectorActions(kind, lo + 1, hi);
    }
  }

  lemma {:induction false} EachActions(kind: Kind, flags: seq<bool>, k: nat)
    requires k <= |flags|
    ensures forall a :: a in Each(kind, flags, k) ==> exists w: nat :: k <= w < |flags| && a == Do(kind, w) && flags[w]
    ensures forall w :: k <= w < |flags| && flags[w] ==> Do(kind, w) in Each(kind, flags, k)
    decreases |flags| - k
  {
    if k < |flags| {
      EachActions(kind, flags, k + 1);
    }
  }

  lemma {:induction false} FinishActions(objects: seq<bool>, threads: seq<bool>, k: nat)
    requires k <= |objects| == |threads|
    ensures forall a :: a in Finishes(objects, threads, k) ==> a.Join? || a.Delete?
    decreases |objects| - k
  {
    if k < |objects| {
      FinishActions(objects, threads, k + 1);
    }
  }

  /** Deleting every object, in the state after the requests, leaves no worker. */
  lemma {:induction false} PlayFinishes(objects: seq<bool>, threads: seq<bool>, k: nat, s: seq<Worker>)
    requires k <= |objects| == |threads| == |s|
    requires forall j :: 0 <= j < k ==> s[j] == Absent
    requires forall j :: k <= j < |s| ==> s[j] == if !objects[j] then Absent else if threads[j] then Asked else Made
    ensures Play(s, Finishes(objects, threads, k)) == Some(Nobody(|s|))
    decreases |objects| - k
  {
    hide Finish, Play;
    if k == |objects| {
      assert s == Nobody(|s|);
      PlayNothing(s);
    } else {
      var t := s[k := Absent];
      PlayFinish(objects[k], threads[k], k, s);
      PlayFinishes(objects, threads, k + 1, t);
      PlayAppend(s, Finish(objects[k], threads[k], k), Finishes(objects, threads, k + 1));
    }
  }

  lemma PlayNothing(s: seq<Worker>)
    ensures Play(s, []) == Some(s)
  {}

  lemma PlayFinish(made: bool, thread: bool, k: nat, s: seq<Worker>)
    requires k < |s| && s[k] == if !made then Absent else if thread then Asked else Made
    ensures Play(s, Finish(made, thread, k)) == Some(s[k := Absent])
  {
    if made && thread {
      assert [Join(k), Delete(k)][1..] == [Delete(k)] && [Delete(k)][1..] == [];
      PlayNothing(s[k := Absent]);
      assert Play(s[k := Joined], [Delete(k)]) == Some(s[k := Joined][k := Absent]);
      assert s[k := Joined][k := Absent] == s[k := Absent];
    } else if made {
      assert [Delete(k)][1..] == [];
    } else {
      assert s[k := Absent] == s;
    }
  }

  /** A stop does nothing a worker does not allow, and afterwards no worker exists. */
  lemma StopIsAllowed(injectors: nat, injectorThreads: nat, objects: seq<bool>, threads: seq<bool>)
    requires Backed(objects, threads)
    ensures Play(Workers(objects, threads), StopActions(injectors, injectorThreads, objects, threads))
         == Some(Nobody(|objects|))
  {
    hide Injectors, Each, Finishes, Play;
    var a, b := Injectors(InjectorRequest, 0, injectors), Each(Request, threads, 0);
    var c, d := Injectors(InjectorJoin, 0, injectorThreads), Finishes(objects, threads, 0);
    var s := Workers(objects, threads);
    var t := Changed(s, threads, 0, Asked);
    PlayInjectors(s, InjectorRequest, 0, injectors);
    PlayEach(Request, threads, 0, s);
    PlayInjectors(t, InjectorJoin, 0, injectorThreads);
    PlayFinishes(objects, threads, 0, t);
    PlayAppend(s, a, b);
    PlayAppend(s, a + b, c);
    PlayAppend(s, a + b + c, d);
  }

  /** Every request of a stop, to workers and injectors, comes before the first join; no started injector is missed. */
  lemma RequestsBeforeJoins(injectors: nat, injectorThreads: nat, objects: seq<bool>, threads: seq<bool>)
    requires |objects| == |threads| && injectorThreads <= injectors
    ensures var l := StopActions(injectors, injectorThreads, objects, threads);
            && (forall i, j :: 0 <= i < |l| && 0 <= j < |l| && IsRequest(l[i]) && IsJoin(l[j]) ==> i < j)
            && (forall n: nat :: n < injectorThreads ==> AskInjector(n) in l && JoinInjector(n) in l)
  {
    hide Injectors, Each, Finishes;
    var a, b := Injectors(InjectorRequest, 0, injectors), Each(Request, threads, 0);
    var c, d := Injectors(InjectorJoin, 0, injectorThreads), Finishes(objects, threads, 0);
    InjectorActions(InjectorRequest, 0, injectors);
    InjectorActions(InjectorJoin, 0, injectorThreads);
    EachActions(Request, threads, 0);
    FinishActions(objects, threads, 0);
    var l := StopActions(injectors, injectorThreads, objects, threads);
    assert l == (a + b) + (c + d);
    assert forall x :: x in a + b ==> !IsJoin(x);
    assert forall x :: x in c + d ==> !IsRequest(x);
    forall i | 0 <= i < |l|
      ensures if i < |a + b| then l[i] in a + b else l[i] in c + d
    {
      if i >= |a + b| {
        assert l[i] == (c + d)[i - |a + b|];
      }
    }
    forall n: nat | n < injectorThreads
      ensures AskInjector(n) in l && JoinInjector(n) in l
    {
      assert DoInjector(InjectorRequest, n) in a && DoInjector(InjectorJoin, n) in c;
    }
  }

  // ----- What an allowed sequence of actions means for one worker -----

  /** The next action of a worker that has been launched. */
  function Due(w: nat, phase: Worker): Action
    requires phase.Running? || phase.Asked? || phase.Joined?
  {
    match phase case Running => Ask(w) case Asked => Join(w) case Joined => Delete(w)
  }

  lemma {:induction false} NextAction(s: seq<Worker>, l: seq<Action>, t: seq<Worker>, w: nat)
    returns (i: nat, u: seq<Worker>)
    requires w < |s| == |t| && Play(s, l) == Some(t) && s[w] != t[w]
    requires s[w].Running? || s[w].Asked? || s[w].Joined?
    ensures i < |l| && l[i] == Due(w, s[w])
    ensures |u| == |s| && Some(u[w]) == Move(s[w], l[i]) && Play(u, l[i + 1..]) == Some(t)
    decreases |l|
  {
    if OnInjector(l[0]) {
      i, u := NextAction(s, l[1..], t, w);
      assert l[1..][i + 1..] == l[i + 2..];
      i := i + 1;
    } else {
      u := s[l[0].worker := Move(s[l[0].worker], l[0]).value];
      if l[0].worker == w {
        i := 0;
      } else {
        i, u := NextAction(u, l[1..], t, w);
        assert l[1..][i + 1..] == l[i + 2..];
        i := i + 1;
      }
    }
  }

  /** A worker that runs before an allowed sequence and is gone after it was asked, then joined, then deleted. */
  lemma AskedJoinedDeleted(s: seq<Worker>, l: seq<Action>, t: seq<Worker>, w: nat)
    requires w < |s| == |t| && Play(s, l) == Some(t) && s[w] == Running && t[w] == Absent
    ensures exists i, j, k :: 0 <= i < j < k < |l| && l[i] == Ask(w) && l[j] == Join(w) && l[k] == Delete(w)
  {
    hide Play;
    var i, u := NextAction(s, l, t, w);
    var l1 := l[i + 1..];
    var j, v := NextAction(u, l1, t, w);
    var l2 := l1[j + 1..];
    var k, _ := NextAction(v, l2, t, w);
    assert l[i + 1 + j] == Join(w) && l[i + j + k + 2] == Delete(w);
  }

  /** What a stop does to each running worker. */
  lemma StopLeavesNothingRunning(injectors: nat, injectorThreads: nat, objects: seq<bool>, threads: seq<bool>, w: nat)
    requires Backed(objects, threads) && w < |threads| && threads[w]
    ensures var l := StopActions(injectors, injectorThreads, objects, threads);
            exists i, j, k :: 0 <= i < j < k < |l| && l[i] == Ask(w) && l[j] == Join(w) && l[k] == Delete(w)
  {
    hide Play, StopActions;
    StopIsAllowed(injectors, injectorThreads, objects, threads);
    AskedJoinedDeleted(Workers(objects, threads), StopActions(injectors, injectorThreads, objects, threads),
                       Nobody(|objects|), w);
  }
}

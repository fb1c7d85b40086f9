/**
 * The settlement overlap of src/engine/settlement-overlap.mjs: settlements run one section at a
 * time, hand the slot back while a proof runs, and take it again first come, first served.
 *
 * `State` and `Step` give it as values; the class updates its fields in place and takes the same
 * steps.  A granted waiter counts as being in its section from the grant on.
 */
module SettlementOverlap {
  import opened Collections

  type Node = string

  datatype Phase = Waiting | InSection | Proving

  /** How a settlement ends. */
  datatype Ending = Done | LostLock | Error(message: string)

  datatype State = State(busy: bool, waiters: seq<Node>, phases: map<Node, Phase>, failure: Option<string>)

  datatype Action = Enqueue(node: Node) | Park(node: Node) | ProofEnds(node: Node) | Finish(node: Node, ending: Ending)

  const START := State(false, [], map[], None)

  /** What the caller guarantees: one settlement a node, and only a settlement in its section parks or ends. */
  predicate Enabled(s: State, a: Action)
  {
    match a
    case Enqueue(n) => n !in s.phases
    case ProofEnds(n) => n in s.phases && s.phases[n].Proving?
    case Park(n) => n in s.phases && s.phases[n].InSection?
    case Finish(n, _) => n in s.phases && s.phases[n].InSection?
  }

  /** Take the slot when it is free, or queue for it. */
  function Acquire(s: State, n: Node): State
  {
    if !s.busy then s.(busy := true, phases := s.phases[n := InSection])
    else s.(waiters := s.waiters + [n], phases := s.phases[n := Waiting])
  }

  /** Hand the slot to the first waiter, or leave it free. */
  function Release(s: State): State
  {
    if s.waiters == [] then s.(busy := false)
    else s.(waiters := s.waiters[1..], phases := s.phases[s.waiters[0] := InSection])
  }

  function Step(s: State, a: Action): State
  {
    match a
    case Enqueue(n) => Acquire(s, n)
    case ProofEnds(n) => Acquire(s, n)
    case Park(n) => Release(s.(phases := s.phases[n := Proving]))
    case Finish(n, ending) =>
      Release(s.(phases := s.phases - {n}, failure := if s.failure.None? && ending.Error? then Some(ending.message) else s.failure))
  }

  ghost predicate AllEnabled(s: State, actions: seq<Action>)
    decreases |actions|
  {
    actions == [] || (Enabled(s, actions[0]) && AllEnabled(Step(s, actions[0]), actions[1..]))
  }

  function Run(s: State, actions: seq<Action>): State
    decreases |actions|
  {
    if actions == [] then s else Run(Step(s, actions[0]), actions[1..])
  }

  // ----- one section at a time, and none lost

  predicate Sections(s: State, n: Node) { n in s.phases && s.phases[n].InSection? }

  ghost predicate OneSection(s: State)
  {
    forall m, n | Sections(s, m) && Sections(s, n) :: m == n
  }

  /** The slot is busy exactly while one settlement is in its section, and the queue is exactly the waiting ones. */
  ghost predicate Valid(s: State)
  {
    && OneSection(s)
    && (s.busy <==> exists n :: Sections(s, n))
    && (s.waiters != [] ==> s.busy)
    && Distinct(s.waiters)
    && (forall n :: n in s.waiters <==> n in s.phases && s.phases[n].Waiting?)
  }

  lemma AcquireValid(s: State, n: Node)
    requires Valid(s) && (n !in s.phases || s.phases[n].Proving?)
    ensures Valid(Acquire(s, n))
  {
    var t := Acquire(s, n);
    assert n !in s.waiters;
    if s.busy {
      var m :| Sections(s, m);
      assert Sections(t, m);
      forall x ensures Sections(t, x) <==> Sections(s, x) {}
    } else {
      assert Sections(t, n);
      forall x ensures Sections(t, x) <==> x == n {
        assert !Sections(s, x);
      }
    }
  }

  /** A queue's head and the rest of it. */
  lemma HeadOfQueue(waiters: seq<Node>, n: Node)
    requires waiters != [] && Distinct(waiters)
    ensures Distinct(waiters[1..]) && (n in waiters[1..] <==> n in waiters && n != waiters[0])
  {
    assert waiters == [waiters[0]] + waiters[1..];
  }

  /** When the settlement that was in its section has left it, the hand-off is sound. */
  lemma ReleaseValid(s: State)
    requires s.busy && (forall n :: !Sections(s, n)) && Distinct(s.waiters)
    requires forall n :: n in s.waiters <==> n in s.phases && s.phases[n].Waiting?
    ensures Valid(Release(s))
  {
    var t := Release(s);
    if s.waiters != [] {
      var next := s.waiters[0];
      forall x ensures Sections(t, x) <==> x == next {
        assert !Sections(s, x);
      }
      assert next in s.waiters && Sections(t, next);
      forall n ensures n in t.waiters <==> n in t.phases && t.phases[n].Waiting? {
        HeadOfQueue(s.waiters, n);
      }
      HeadOfQueue(s.waiters, next);
    } else {
      forall x ensures !Sections(t, x) {
        assert !Sections(s, x);
      }
    }
  }

  lemma StepValid(s: State, a: Action)
    requires Valid(s) && Enabled(s, a)
    ensures Valid(Step(s, a))
  {
    match a
    case Enqueue(n) => AcquireValid(s, n);
    case ProofEnds(n) => AcquireValid(s, n);
    case Park(n) =>
      var out := s.(phases := s.phases[n := Proving]);
      forall x ensures !Sections(out, x) {
        assert Sections(s, n) && (Sections(s, x) ==> x == n);
      }
      ReleaseValid(out);
    case Finish(n, ending) =>
      var out := s.(phases := s.phases - {n}, failure := if s.failure.None? && ending.Error? then Some(ending.message) else s.failure);
      forall x ensures !Sections(out, x) {
        assert Sections(s, n) && (Sections(s, x) ==> x == n);
      }
      ReleaseValid(out);
  }

  /**
   * In every run at most one settlement is in its section; the slot is never lost: whenever one
   * waits, another one is in its section and will hand it over.
   */
  lemma {:induction false} RunValid(s: State, actions: seq<Action>)
    requires Valid(s) && AllEnabled(s, actions)
    ensures Valid(Run(s, actions))
    decreases |actions|
  {
    if actions != [] {
      StepValid(s, actions[0]);
      RunValid(Step(s, actions[0]), actions[1..]);
    }
  }

  lemma SectionsNeverOverlap(actions: seq<Action>, m: Node, n: Node)
    requires AllEnabled(START, actions)
    ensures var s := Run(START, actions);
      && (Sections(s, m) && Sections(s, n) ==> m == n)
      && (n in s.phases && s.phases[n].Waiting? ==> exists k :: k != n && Sections(s, k))
  {
    RunValid(START, actions);
  }

  // ----- first come, first served

  function Asks(a: Action): seq<Node> { if a.Enqueue? || a.ProofEnds? then [a.node] else [] }

  /** Who asked for the slot, in order, one entry a request. */
  function Requests(actions: seq<Action>): seq<Node>
  {
    if actions == [] then [] else Asks(actions[0]) + Requests(actions[1..])
  }

  /** Whom a step gives the slot. */
  function Given(s: State, a: Action): seq<Node>
  {
    if a.Enqueue? || a.ProofEnds? then if s.busy then [] else [a.node]
    else if s.waiters == [] then [] else [s.waiters[0]]
  }

  /** Who was given the slot, in order. */
  function Grants(s: State, actions: seq<Action>): seq<Node>
    decreases |actions|
  {
    if actions == [] then [] else Given(s, actions[0]) + Grants(Step(s, actions[0]), actions[1..])
  }

  lemma StepKeepsOrder(s: State, a: Action)
    requires Valid(s)
    ensures s.waiters + Asks(a) == Given(s, a) + Step(s, a).waiters
  {
    if !a.Enqueue? && !a.ProofEnds? && s.waiters != [] {
      assert s.waiters == [s.waiters[0]] + s.waiters[1..];
    }
  }

  lemma Regroup(a: seq<Node>, b: seq<Node>, c: seq<Node>)
    ensures a + b + c == a + (b + c)
  {
  }

  /** The slot goes round in the order it was asked for: who was given it and who still waits are who asked. */
  lemma {:induction false} FirstComeFirstServed(s: State, actions: seq<Action>)
    requires Valid(s) && AllEnabled(s, actions)
    ensures s.waiters + Requests(actions) == Grants(s, actions) + Run(s, actions).waiters
    decreases |actions|
  {
    if actions != [] {
      var a, t, rest := actions[0], Step(s, actions[0]), actions[1..];
      StepValid(s, a);
      FirstComeFirstServed(t, rest);
      StepKeepsOrder(s, a);
      Regroup(s.waiters, Asks(a), Requests(rest));
      Regroup(Given(s, a), t.waiters, Requests(rest));
      Regroup(Given(s, a), Grants(t, rest), Run(t, rest).waiters);
    }
  }

  // ----- parking outside a section

  /**
   * What parking needs: a settlement that is not waiting may hand the slot back if and only if it
   * is in its section, or nobody is.  A second, nested or concurrent, proof of one settlement hands
   * back a slot that another settlement has by then.
   */
  lemma ParkExact(s: State, n: Node)
    requires Valid(s) && n in s.phases && !s.phases[n].Waiting?
    ensures Valid(Step(s, Park(n))) <==> Sections(s, n) || !s.busy
  {
    var t := Step(s, Park(n));
    if Sections(s, n) {
      StepValid(s, Park(n));
    } else if s.busy {
      var m :| Sections(s, m);
      assert Sections(t, m);
      if s.waiters != [] {
        assert s.waiters[0] in s.waiters;
        assert Sections(t, s.waiters[0]);
      }
    } else {
      assert t == s.(phases := s.phases[n := Proving]);
      forall k ensures !Sections(t, k) {
        assert !Sections(s, k);
      }
    }
  }

  // ----- the failure reported

  function FirstError(actions: seq<Action>): Option<string>
  {
    if actions == [] then None
    else if actions[0].Finish? && actions[0].ending.Error? then Some(actions[0].ending.message)
    else FirstError(actions[1..])
  }

  /** The failure is the first error that is not a lost lock, whichever settlement it ended. */
  lemma {:induction false} FailureIsFirst(s: State, actions: seq<Action>)
    ensures Run(s, actions).failure == if s.failure.Some? then s.failure else FirstError(actions)
    decreases |actions|
  {
    if actions != [] {
      FailureIsFirst(Step(s, actions[0]), actions[1..]);
    }
  }

  // ----- the code

  class Overlap {
    var sectionBusy: bool
    var sectionWaiters: seq<Node>
    var settlements: map<Node, Phase>
    var failure: Option<string>

    function Snapshot(): State
      reads this
    {
      State(sectionBusy, sectionWaiters, settlements, failure)
    }

    constructor ()
      ensures Snapshot() == START
    {
      sectionBusy, sectionWaiters, settlements, failure := false, [], map[], None;
    }

    method AcquireSection(node: Node)
      modifies this
      ensures Snapshot() == Acquire(old(Snapshot()), node)
    {
      if !sectionBusy {
        sectionBusy := true;
        settlements := settlements[node := InSection];
        return;
      }
      sectionWaiters := sectionWaiters + [node];
      settlements := settlements[node := Waiting];
    }

    method ReleaseSection()
      modifies this
      ensures Snapshot() == Release(old(Snapshot()))
    {
      if sectionWaiters == [] {
        sectionBusy := false;
      } else {
        var next := sectionWaiters[0];
        sectionWaiters := sectionWaiters[1..];
        settlements := settlements[next := InSection];
      }
    }

    method StartSettlement(node: Node)
      modifies this
      ensures Snapshot() == Step(old(Snapshot()), Enqueue(node))
    {
      AcquireSection(node);
    }

    method ParkForProof(node: Node)
      modifies this
      ensures Snapshot() == Step(old(Snapshot()), Park(node))
    {
      settlements := settlements[node := Proving];
      ReleaseSection();
    }

    method EndProof(node: Node)
      modifies this
      ensures Snapshot() == Step(old(Snapshot()), ProofEnds(node))
    {
      AcquireSection(node);
    }

    method EndSettlement(node: Node, ending: Ending)
      modifies this
      ensures Snapshot() == Step(old(Snapshot()), Finish(node, ending))
    {
      settlements := settlements - {node};
      if ending.Error? && failure.None? {
        failure := Some(ending.message);
      }
      ReleaseSection();
    }
  }
}

/**
 * What the indicators of evals/metrics.mjs say about the recorded events and usage, stated on the
 * records themselves: times, statuses, verdicts and runtimes, not on how they are grouped.
 */
module EvalMeaning {
  import opened Collections
  import opened Rounding
  import opened EvalMetrics

  // ----- time

  /** Whether an event is earlier than another; an unreadable time stands at zero. */
  predicate Earlier(x: Event, y: Event)
  {
    match (x.atMs, y.atMs)
    case (Some(a), Some(b)) => a < b
    case (None, Some(b)) => 0 < b
    case (Some(a), None) => a < 0
    case (None, None) => false
  }

  /** Whether recorded event `m` comes after recorded event `k`: later in time, or recorded later at one time. */
  predicate ComesAfter(events: seq<Event>, m: nat, k: nat)
    requires m < |events| && k < |events|
  {
    Earlier(events[k], events[m]) || (!Earlier(events[m], events[k]) && k < m)
  }

  lemma {:induction false} EntriesHold(events: seq<Event>, node: string, entry: Entry)
    ensures entry in Entries(events, node)
      <==> entry.index < |events| && events[entry.index] == entry.event && entry.event.node == Some(node)
  {
    if events != [] {
      EntriesHold(events[..|events| - 1], node, entry);
    }
  }

  lemma EntryLeIsPreorder()
    ensures TotalPreorder(EntryLe)
  {
  }

  /** The group of a node as entries in the order of the sort. */
  function Ranked(events: seq<Event>, node: string): seq<Entry>
  {
    Sort(EntryLe, Entries(events, node))
  }

  lemma RankedGroup(events: seq<Event>, node: string)
    ensures Map(EventOf, Ranked(events, node)) == NodeEvents(events, node)
    ensures Sorted(EntryLe, Ranked(events, node))
    ensures forall entry :: entry in Ranked(events, node) <==> entry in Entries(events, node)
  {
    SortedEntries(events, node);
    EntryLeIsPreorder();
    SortSorted(EntryLe, Entries(events, node));
    SortMultiset(EntryLe, Entries(events, node));
  }

  /** A node's group runs forward in time; an unreadable time stands at zero. */
  lemma GroupInTime(events: seq<Event>, node: string, i: nat, j: nat)
    requires i < j < |NodeEvents(events, node)|
    ensures var x, y := NodeEvents(events, node)[i], NodeEvents(events, node)[j];
      && (x.atMs.Some? && y.atMs.Some? ==> x.atMs.value <= y.atMs.value)
      && (x.atMs.None? && y.atMs.Some? ==> 0 <= y.atMs.value)
      && (x.atMs.Some? && y.atMs.None? ==> x.atMs.value <= 0)
  {
    RankedGroup(events, node);
    assert EntryLe(Ranked(events, node)[i], Ranked(events, node)[j]);
  }

  /** The place in the record of the event at a place of the group. */
  lemma PlaceInRecord(events: seq<Event>, node: string, i: nat) returns (k: nat)
    requires i < |NodeEvents(events, node)|
    ensures |Ranked(events, node)| == |NodeEvents(events, node)| && k < |events|
    ensures Ranked(events, node)[i] == Entry(k, events[k]) && NodeEvents(events, node)[i] == events[k] && events[k].node == Some(node)
  {
    RankedGroup(events, node);
    var entry := Ranked(events, node)[i];
    assert entry in Ranked(events, node);
    EntriesHold(events, node, entry);
    k := entry.index;
  }

  lemma PlaceInGroup(events: seq<Event>, node: string, m: nat) returns (j: nat)
    requires m < |events| && events[m].node == Some(node)
    ensures |Ranked(events, node)| == |NodeEvents(events, node)| && j < |NodeEvents(events, node)|
    ensures Ranked(events, node)[j] == Entry(m, events[m]) && NodeEvents(events, node)[j] == events[m]
  {
    RankedGroup(events, node);
    EntriesHold(events, node, Entry(m, events[m]));
    j :| 0 <= j < |Ranked(events, node)| && Ranked(events, node)[j] == Entry(m, events[m]);
  }

  lemma RankedInTime(events: seq<Event>, node: string, j: nat, i: nat, m: nat, k: nat)
    requires j < i < |Ranked(events, node)| && m < |events| && k < |events|
    requires Ranked(events, node)[j] == Entry(m, events[m]) && Ranked(events, node)[i] == Entry(k, events[k]) && m != k
    ensures ComesAfter(events, k, m)
  {
    RankedGroup(events, node);
    assert EntryLe(Ranked(events, node)[j], Ranked(events, node)[i]);
  }

  // ----- the terminal event

  /** An event that settles a node: it moves it to a status other than pending and running. */
  predicate SettledOn(e: Event, node: string)
  {
    e.node == Some(node) && e.to.Some? && e.to.value != "pending" && e.to.value != "running"
  }

  ghost predicate LastSettled(events: seq<Event>, node: string, k: nat)
  {
    && k < |events| && SettledOn(events[k], node)
    && forall m | 0 <= m < |events| && m != k && SettledOn(events[m], node) :: ComesAfter(events, k, m)
  }

  /** The terminal event of a node is the recorded one that settles it after all others; without any there is none. */
  lemma TerminalExact(events: seq<Event>, node: string) returns (k: nat)
    ensures TerminalOf(NodeEvents(events, node)).None? <==> forall m | 0 <= m < |events| :: !SettledOn(events[m], node)
    ensures TerminalOf(NodeEvents(events, node)).Some? ==> LastSettled(events, node, k) && TerminalOf(NodeEvents(events, node)) == Some(events[k])
  {
    var group := NodeEvents(events, node);
    TerminalIsLastSettled(group);
    k := 0;
    if TerminalOf(group).Some? {
      var i :| 0 <= i < |group| && group[i] == TerminalOf(group).value && IsSettled(group[i]) && forall j | i < j < |group| :: !IsSettled(group[j]);
      k := PlaceInRecord(events, node, i);
      forall m | 0 <= m < |events| && m != k && SettledOn(events[m], node) ensures ComesAfter(events, k, m) {
        var j := PlaceInGroup(events, node, m);
        assert IsSettled(group[j]);
        RankedInTime(events, node, j, i, m, k);
      }
    } else {
      forall m | 0 <= m < |events| ensures !SettledOn(events[m], node) {
        if events[m].node == Some(node) {
          var j := PlaceInGroup(events, node, m);
          assert !IsSettled(group[j]);
        }
      }
    }
  }

  lemma AfterIsStrict(events: seq<Event>, k: nat, m: nat)
    requires k < |events| && m < |events|
    ensures k != m ==> !(ComesAfter(events, k, m) && ComesAfter(events, m, k))
  {
  }

  /** There is at most one such event. */
  lemma LastSettledUnique(events: seq<Event>, node: string, k: nat, m: nat)
    requires LastSettled(events, node, k) && LastSettled(events, node, m)
    ensures k == m
  {
    AfterIsStrict(events, k, m);
  }

  // ----- the first verdict

  predicate JudgedOn(e: Event, node: string) { e.node == Some(node) && e.verdict.Some? }

  ghost predicate FirstJudged(events: seq<Event>, node: string, k: nat)
  {
    && k < |events| && JudgedOn(events[k], node)
    && forall m | 0 <= m < |events| && m != k && JudgedOn(events[m], node) :: ComesAfter(events, m, k)
  }

  /** A node's gate counts the verdict recorded before all others; without any the node has no gate. */
  lemma VerdictExact(events: seq<Event>, node: string) returns (k: nat)
    ensures FirstVerdict(NodeEvents(events, node)).None? <==> forall m | 0 <= m < |events| :: !JudgedOn(events[m], node)
    ensures FirstVerdict(NodeEvents(events, node)).Some? ==> FirstJudged(events, node, k) && FirstVerdict(NodeEvents(events, node)) == events[k].verdict
  {
    var group := NodeEvents(events, node);
    FirstVerdictIsFirst(group);
    k := 0;
    if FirstVerdict(group).Some? {
      var i :| 0 <= i < |group| && group[i].verdict == FirstVerdict(group) && forall j | 0 <= j < i :: group[j].verdict.None?;
      k := PlaceInRecord(events, node, i);
      forall m | 0 <= m < |events| && m != k && JudgedOn(events[m], node) ensures ComesAfter(events, m, k) {
        var j := PlaceInGroup(events, node, m);
        assert group[j].verdict.Some?;
        RankedInTime(events, node, i, j, k, m);
      }
    } else {
      forall m | 0 <= m < |events| ensures !JudgedOn(events[m], node) {
        if events[m].node == Some(node) {
          var j := PlaceInGroup(events, node, m);
          assert group[j].verdict.None?;
        }
      }
    }
  }

  lemma FirstJudgedUnique(events: seq<Event>, node: string, k: nat, m: nat)
    requires FirstJudged(events, node, k) && FirstJudged(events, node, m)
    ensures k == m
  {
    AfterIsStrict(events, k, m);
  }

  // ----- the nodes that count

  ghost predicate EndsAs(events: seq<Event>, node: string, status: string)
  {
    exists k: nat :: LastSettled(events, node, k) && events[k].to == Some(status)
  }

  ghost predicate Ends(events: seq<Event>, node: string)
  {
    exists m | 0 <= m < |events| :: SettledOn(events[m], node)
  }

  lemma EndsExact(events: seq<Event>, node: string, status: string)
    ensures var terminal := TerminalOf(NodeEvents(events, node));
      && (terminal.Some? <==> Ends(events, node))
      && (terminal.Some? && terminal.value.to == Some(status) <==> EndsAs(events, node, status))
  {
    var k := TerminalExact(events, node);
    if m: nat :| LastSettled(events, node, m) && events[m].to == Some(status) {
      assert SettledOn(events[m], node);
      LastSettledUnique(events, node, k, m);
    }
  }

  lemma GroupOfNoEvents(events: seq<Event>, node: string)
    ensures node !in GroupEvents(events) ==> NodeEvents(events, node) == []
    ensures node in GroupEvents(events) ==> GroupEvents(events)[node] == NodeEvents(events, node)
  {
    if node !in GroupEvents(events) {
      NoEvents(events, node);
    }
  }

  /** The nodes of the whole record that ended done, and those that ended at all. */
  lemma NodesThatEnd(events: seq<Event>, node: string)
    ensures var terminals := Terminals(GroupEvents(events));
      && (node in terminals <==> Ends(events, node))
      && (node in Closed(terminals) <==> EndsAs(events, node, "done") || EndsAs(events, node, "no-op"))
      && (node in Blocked(terminals) <==> EndsAs(events, node, "blocked"))
  {
    GroupOfNoEvents(events, node);
    EndsExact(events, node, "done");
    EndsExact(events, node, "no-op");
    EndsExact(events, node, "blocked");
  }

  /** The revisions a closed checkpoint counts are those of the event that ended it, or none. */
  lemma RevisionsExact(events: seq<Event>, node: string, k: nat)
    requires LastSettled(events, node, k)
    ensures Revisions(Terminals(GroupEvents(events)))(node) == if events[k].revisions.Some? then events[k].revisions.value else 0.0
  {
    GroupOfNoEvents(events, node);
    var m := TerminalExact(events, node);
    assert SettledOn(events[k], node);
    LastSettledUnique(events, node, k, m);
  }

  /** A node is gated when a verdict is recorded for it, and passes when the first one is a pass. */
  lemma GatesExact(events: seq<Event>, node: string)
    ensures node in Passes(GroupEvents(events)) <==> exists k: nat :: FirstJudged(events, node, k)
    ensures node in Passes(GroupEvents(events)) <==> exists m | 0 <= m < |events| :: JudgedOn(events[m], node)
    ensures forall k: nat | FirstJudged(events, node, k) ::
      Passes(GroupEvents(events))[node] == if events[k].verdict == Some("pass") then 1 else 0
  {
    GroupOfNoEvents(events, node);
    var k := VerdictExact(events, node);
    forall m: nat | FirstJudged(events, node, m)
      ensures node in Passes(GroupEvents(events)) && Passes(GroupEvents(events))[node] == if events[m].verdict == Some("pass") then 1 else 0
    {
      assert JudgedOn(events[m], node);
      FirstJudgedUnique(events, node, k, m);
    }
  }

  predicate WorkedOn(e: Event, node: string) { e.node == Some(node) && e.phase == Some("worker") && e.runtime.Some? }

  lemma RuntimesExact(events: seq<Event>, node: string, runtime: string)
    ensures runtime in RuntimesOf(NodeEvents(events, node))
      <==> exists e :: e in events && WorkedOn(e, node) && e.runtime == Some(runtime)
  {
    var group := NodeEvents(events, node);
    SortMultiset(KeyLe(OrderOf), Filter(OnNode(node), events));
    assert forall e :: e in group <==> e in events && OnNode(node)(e);
  }

  ghost predicate Worked(events: seq<Event>, node: string)
  {
    exists e :: e in events && WorkedOn(e, node)
  }

  ghost predicate ChangedRuntime(events: seq<Event>, node: string)
  {
    exists e, f :: e in events && f in events && WorkedOn(e, node) && WorkedOn(f, node) && e.runtime != f.runtime
  }

  lemma RuntimeCount(events: seq<Event>, node: string)
    ensures |RuntimesOf(NodeEvents(events, node))| > 0 <==> Worked(events, node)
    ensures |RuntimesOf(NodeEvents(events, node))| > 1 <==> ChangedRuntime(events, node)
  {
    var runtimes := RuntimesOf(NodeEvents(events, node));
    SizeMeansMembers(runtimes);
    if x, y :| x in runtimes && y in runtimes && x != y {
      RuntimesExact(events, node, x);
      RuntimesExact(events, node, y);
    }
    if x :| x in runtimes {
      RuntimesExact(events, node, x);
    }
    if e :| e in events && WorkedOn(e, node) {
      RuntimesExact(events, node, e.runtime.value);
    }
    if e, f :| e in events && f in events && WorkedOn(e, node) && WorkedOn(f, node) && e.runtime != f.runtime {
      RuntimesExact(events, node, e.runtime.value);
      RuntimesExact(events, node, f.runtime.value);
    }
  }

  /** A node worked on counts, and has failed over when two of its worker events name different runtimes. */
  lemma FailoverExact(events: seq<Event>, node: string)
    ensures node in WorkerRuntimes(GroupEvents(events)) <==> Worked(events, node)
    ensures node in FailedOver(WorkerRuntimes(GroupEvents(events))) <==> ChangedRuntime(events, node)
  {
    GroupOfNoEvents(events, node);
    RuntimeCount(events, node);
  }

  lemma SizeMeansMembers<T(!new)>(s: set<T>)
    ensures |s| > 0 <==> exists x :: x in s
    ensures |s| > 1 <==> exists x, y :: x in s && y in s && x != y
  {
    if |s| > 0 {
      var x :| x in s;
      assert s == {x} + (s - {x}) && |s| == 1 + |s - {x}|;
      if |s| > 1 {
        var y :| y in s - {x};
        assert y in s && x != y;
      }
    }
  }

  // ----- exclusion, usage and time

  /** Exclusion drops exactly the events that name an excluded run. */
  lemma WithoutExact(events: seq<Event>, excluded: set<string>, e: Event)
    ensures multiset(Without(events, excluded))[e]
      == if exists id :: id in excluded && e.runId == Some(id) then 0 else multiset(events)[e]
  {
    FilterMultiset(IsKept(excluded), events, e);
  }

  /** What a usage record adds to the known cost: nothing when its cost is missing or of unknown provenance. */
  function KnownCost(u: Usage): real
  {
    if u.costUsd.Some? && u.costProvenance != Some("unknown") then u.costUsd.value else 0.0
  }

  lemma {:induction false} SpendExact(usage: seq<Usage>)
    ensures SpendOf(usage).total == SumBy(KnownCost, usage)
  {
    if usage != [] {
      SpendExact(usage[..|usage| - 1]);
    }
  }

  /** The nodes that count as costed: a provider reported a cost for them. */
  lemma CostedExact(usage: seq<Usage>, node: string)
    ensures node in SpendOf(usage).nodeIds
      <==> node != "" && exists u :: u in usage && u.nodeId == Some(node) && u.costUsd.Some? && u.costProvenance != Some("unknown")
  {
    CostedNodes(usage, node);
    if u :| u in usage && u.nodeId == Some(node) && u.costUsd.Some? && u.costProvenance != Some("unknown") {
      assert HasCost(u);
    }
  }

  lemma JudgedExact(usage: seq<Usage>, node: string)
    ensures node in JudgedNodes(usage) <==> exists u :: u in usage && u.role == Some("judge") && u.nodeId == Some(node)
  {
  }

  ghost predicate TwoTimed(events: seq<Event>)
  {
    exists i, j | 0 <= i < j < |events| :: events[i].atMs.Some? && events[j].atMs.Some?
  }

  lemma {:induction false} TimedCount(events: seq<Event>)
    ensures ClockOf(events).count > 1 <==> TwoTimed(events)
  {
    if events != [] {
      var n := |events| - 1;
      var front := events[..n];
      TimedCount(front);
      ClockBounds(front);
      if TwoTimed(front) {
        var i, j :| 0 <= i < j < |front| && front[i].atMs.Some? && front[j].atMs.Some?;
        assert events[i].atMs.Some? && events[j].atMs.Some?;
      } else if ClockOf(front).count > 0 && events[n].atMs.Some? {
        var e :| e in front && IsTimed(e);
        var i :| 0 <= i < |front| && front[i] == e;
        assert events[i].atMs.Some? && events[n].atMs.Some?;
      }
      if i :| 0 <= i < n && events[i].atMs.Some? && events[n].atMs.Some? {
        assert front[i] in front && IsTimed(front[i]);
      }
    }
  }

  /** The span is measured from two readable times on; it is the greatest difference of two, in seconds. */
  lemma SpanExact(events: seq<Event>)
    ensures var span := SpanSeconds(ClockOf(events));
      && (span.Some? <==> TwoTimed(events))
      && (span.Some? ==>
        && (forall e, f | e in events && f in events && e.atMs.Some? && f.atMs.Some? :: (f.atMs.value - e.atMs.value) as real <= span.value * 1000.0)
        && exists e, f :: e in events && f in events && e.atMs.Some? && f.atMs.Some? && (f.atMs.value - e.atMs.value) as real == span.value * 1000.0)
  {
    TimedCount(events);
    ClockBounds(events);
    var c := ClockOf(events);
    if c.count > 1 {
      var e :| e in events && e.atMs == Some(c.earliest);
      var f :| f in events && f.atMs == Some(c.latest);
      assert SpanSeconds(c).value * 1000.0 == (c.latest - c.earliest) as real;
      forall x, y | x in events && y in events && x.atMs.Some? && y.atMs.Some?
        ensures (y.atMs.value - x.atMs.value) as real <= SpanSeconds(c).value * 1000.0
      {
        assert IsTimed(x) && IsTimed(y);
      }
    }
  }

  // ----- missing sources

  lemma EndsWithExact(s: string, suffix: string)
    ensures EndsWith(s, suffix) <==> exists id: string :: s == id + suffix
  {
    if EndsWith(s, suffix) {
      assert s == s[..|s| - |suffix|] + suffix;
    }
    if id: string :| s == id + suffix {
      assert s[|id|..] == suffix;
    }
  }

  /** A missing source feeds an indicator when it is one of the named files, or such a file of some run. */
  lemma LostExact(missing: set<string>, suffixes: set<string>, source: string)
    ensures source in Lost(missing, suffixes)
      <==> source in missing && exists suffix :: suffix in suffixes && (source == suffix || exists id: string :: source == id + ("." + suffix))
  {
    forall suffix ensures EndsWith(source, "." + suffix) <==> exists id: string :: source == id + ("." + suffix) {
      EndsWithExact(source, "." + suffix);
    }
  }

  // ----- the report

  ghost function ClosedNodes(events: seq<Event>): set<string>
  {
    set node | node in Nodes(events) && (EndsAs(events, node, "done") || EndsAs(events, node, "no-op"))
  }

  ghost function BlockedNodes(events: seq<Event>): set<string>
  {
    set node | node in Nodes(events) && EndsAs(events, node, "blocked")
  }

  ghost function EndedNodes(events: seq<Event>): set<string>
  {
    set node | node in Nodes(events) && Ends(events, node)
  }

  ghost function WorkedNodes(events: seq<Event>): set<string> { set node | node in Nodes(events) && Worked(events, node) }

  ghost function FailedOverNodes(events: seq<Event>): set<string> { set node | node in Nodes(events) && ChangedRuntime(events, node) }

  lemma EndSets(events: seq<Event>)
    ensures var terminals := Terminals(GroupEvents(events));
      terminals.Keys == EndedNodes(events) && Closed(terminals) == ClosedNodes(events) && Blocked(terminals) == BlockedNodes(events)
  {
    var terminals := Terminals(GroupEvents(events));
    forall node
      ensures (node in terminals <==> node in EndedNodes(events)) && (node in Closed(terminals) <==> node in ClosedNodes(events))
      ensures node in Blocked(terminals) <==> node in BlockedNodes(events)
    {
      NodesThatEnd(events, node);
    }
  }

  lemma WorkerSets(events: seq<Event>)
    ensures var workers := WorkerRuntimes(GroupEvents(events));
      workers.Keys == WorkedNodes(events) && FailedOver(workers) == FailedOverNodes(events)
  {
    var workers := WorkerRuntimes(GroupEvents(events));
    forall node
      ensures (node in workers <==> node in WorkedNodes(events)) && (node in FailedOver(workers) <==> node in FailedOverNodes(events))
    {
      FailoverExact(events, node);
    }
  }

  /** A rate of what was counted over what could have been, up to rounding; missing without a count or a source. */
  predicate IsRate(r: Rate, direction: Direction, part: nat, whole: nat, excluded: set<string>, lost: set<string>)
  {
    && r.direction == direction && r.numerator == part && r.denominator == whole
    && r.excludedRunIds == excluded && r.missingSources == lost
    && (r.value.None? <==> whole == 0 || lost != {})
    && (r.value.Some? ==> part as real - 0.00005 * whole as real <= r.value.value * whole as real <= part as real + 0.00005 * whole as real)
  }

  lemma RateExact(direction: Direction, part: nat, whole: nat, excluded: set<string>, lost: set<string>)
    ensures IsRate(LoseRate(EvalRate(direction, part, whole, excluded), lost), direction, part, whole, excluded, lost)
  {
    if whole > 0 {
      MeanNear(part as real, whole);
    }
  }

  lemma NodeRatesExact(kept: seq<Event>, excluded: set<string>, lost: set<string>)
    ensures IsRate(LoseRate(BlockedRate(GroupEvents(kept), excluded), lost), Down, |BlockedNodes(kept)|, |EndedNodes(kept)|, excluded, lost)
    ensures IsRate(LoseRate(FailoverRate(GroupEvents(kept), excluded), lost), Down, |FailedOverNodes(kept)|, |WorkedNodes(kept)|, excluded, lost)
  {
    EndSets(kept);
    WorkerSets(kept);
    var terminals, workers := Terminals(GroupEvents(kept)), WorkerRuntimes(GroupEvents(kept));
    assert |terminals| == |terminals.Keys| && |workers| == |workers.Keys|;
    RateExact(Down, |BlockedNodes(kept)|, |EndedNodes(kept)|, excluded, lost);
    RateExact(Down, |FailedOverNodes(kept)|, |WorkedNodes(kept)|, excluded, lost);
  }

  /**
   * The rates of a report on the records: blocked and failed-over nodes of the kept events, judged
   * nodes among all closed ones, and failure events over usage records.
   */
  lemma RatesExact(events: seq<Event>, usage: seq<Usage>, missing: set<string>, excluded: set<string>)
    ensures var r, kept := Project(events, usage, missing, excluded), Without(events, excluded);
      var one, both := Lost(missing, {"events.jsonl"}), Lost(missing, {"events.jsonl", "usage.jsonl"});
      && IsRate(r.judgeInvocationRate, Up, |ClosedNodes(events) * JudgedNodes(usage)|, |ClosedNodes(events)|, excluded, both)
      && IsRate(r.blockedContextRate, Down, |BlockedNodes(kept)|, |EndedNodes(kept)|, excluded, one)
      && IsRate(r.providerFailoverRate, Down, |FailedOverNodes(kept)|, |WorkedNodes(kept)|, excluded, one)
      && IsRate(r.protocolFailureRate, Down, |Filter(IsProtocolFailure, events)|, |usage|, excluded, both)
  {
    EndSets(events);
    var both := Lost(missing, {EVENTS, USAGE});
    RateExact(Up, |ClosedNodes(events) * JudgedNodes(usage)|, |ClosedNodes(events)|, excluded, both);
    NodeRatesExact(Without(events, excluded), excluded, Lost(missing, {EVENTS}));
    RateExact(Down, |Filter(IsProtocolFailure, events)|, |usage|, excluded, both);
  }

  /** The gate rate holds a one or a zero for every gated node of the kept events, as `GatesExact` says. */
  lemma GateRateExact(events: seq<Event>, usage: seq<Usage>, missing: set<string>, excluded: set<string>)
    ensures var g, passes := Project(events, usage, missing, excluded).firstPassGateRate, Passes(GroupEvents(Without(events, excluded)));
      var lost := Lost(missing, {"events.jsonl"});
      && g.direction == Up && g.passes == passes && g.count == |passes.Keys| && g.excludedRunIds == excluded && g.missingSources == lost
      && g.value == if |passes.Keys| == 0 || lost != {} then None else Some(passes)
  {
    var passes := Passes(GroupEvents(Without(events, excluded)));
    assert |passes| == |passes.Keys|;
  }

  /** The totals of a report on the records: what was spent, revised and waited, over the closed checkpoints. */
  lemma TotalsExact(events: seq<Event>, usage: seq<Usage>, missing: set<string>, excluded: set<string>)
    ensures var r, closed := Project(events, usage, missing, excluded), ClosedNodes(events);
      var one, other := Lost(missing, {"events.jsonl"}), Lost(missing, {"usage.jsonl"});
      && IsMeanOf(r.costPerClosedCheckpoint, Some(SumBy(KnownCost, usage)), |closed * SpendOf(usage).nodeIds|, other)
      && IsMeanOf(r.revisionsPerDone, Some(SumOver(Revisions(Terminals(GroupEvents(events))), closed)), |closed|, one)
      && IsMeanOf(r.wallClockPerClosedCheckpoint, SpanSeconds(ClockOf(events)), |closed|, one)
  {
    EndSets(events);
    SpendExact(usage);
    TotalsAreMeans(events, usage, missing, excluded);
  }
}

/**
 * The indicator projector of evals/metrics.mjs: events are grouped by node and ordered by time,
 * usage records are summed, and both are folded into one report.
 *
 * An optional field of a record is present when the record holds it with the type the code asks
 * for.  Sorted lists of distinct names (runs, sources) are modelled as sets.
 */
module EvalMetrics {
  import opened Collections
  import opened Rounding

  datatype Event = Event(
    node: Option<string>,
    atMs: Option<int>,
    to: Option<string>,
    verdict: Option<string>,
    phase: Option<string>,
    runtime: Option<string>,
    error: Option<string>,
    revisions: Option<real>,
    runId: Option<string>)

  datatype Usage = Usage(costUsd: Option<real>, costProvenance: Option<string>, nodeId: Option<string>, role: Option<string>)

  datatype Direction = Down | Up

  datatype Measured = Measured(direction: Direction, count: nat, value: Option<real>, missingSources: set<string>)

  datatype Rate = Rate(
    direction: Direction, numerator: nat, denominator: nat, value: Option<real>, excludedRunIds: set<string>, missingSources: set<string>)

  /** A rate per node; the passes are its numerators, and every denominator is one. */
  datatype GroupedRate = GroupedRate(
    direction: Direction, count: nat, passes: map<string, nat>, value: Option<map<string, nat>>, excludedRunIds: set<string>, missingSources: set<string>)

  datatype Report = Report(
    costPerClosedCheckpoint: Measured,
    firstPassGateRate: GroupedRate,
    judgeInvocationRate: Rate,
    revisionsPerDone: Measured,
    blockedContextRate: Rate,
    wallClockPerClosedCheckpoint: Measured,
    providerFailoverRate: Rate,
    protocolFailureRate: Rate)

  // ----- grouping events by node

  /** The time an event is ordered by; an unreadable timestamp counts as zero. */
  function OrderOf(e: Event): int { if e.atMs.Some? then e.atMs.value else 0 }

  function OnNode(node: string): Event -> bool { (e: Event) => e.node == Some(node) }

  /** The events of one node in time order, recorded order breaking ties. */
  function NodeEvents(events: seq<Event>, node: string): seq<Event>
  {
    Sort(KeyLe(OrderOf), Filter(OnNode(node), events))
  }

  function Nodes(events: seq<Event>): set<string>
  {
    set e | e in events && e.node.Some? :: e.node.value
  }

  type ByNode = map<string, seq<Event>>

  function GroupEvents(events: seq<Event>): ByNode
  {
    map node | node in Nodes(events) :: NodeEvents(events, node)
  }

  datatype Entry = Entry(index: nat, event: Event)

  function EventOf(entry: Entry): Event { entry.event }
  function OrderOfEntry(entry: Entry): int { OrderOf(entry.event) }

  /** The events of grouped entries. */
  function EventsOf(byNode: map<string, seq<Entry>>): ByNode
  {
    map node | node in byNode :: Map(EventOf, byNode[node])
  }

  /** The comparator of the sort: time first, then the index in the record. */
  predicate EntryLe(left: Entry, right: Entry)
  {
    OrderOfEntry(left) < OrderOfEntry(right) || (OrderOfEntry(left) == OrderOfEntry(right) && left.index <= right.index)
  }

  predicate IndexBefore(left: Entry, right: Entry) { left.index < right.index }

  /** The entry the event at an index gives one node, if it is on that node. */
  function EntryAt(event: Event, index: nat, node: string): seq<Entry>
  {
    if event.node == Some(node) then [Entry(index, event)] else []
  }

  /** The entries of one node, in recorded order. */
  function Entries(events: seq<Event>, node: string): seq<Entry>
  {
    if events == [] then [] else
    var n := |events| - 1;
    Entries(events[..n], node) + EntryAt(events[n], n, node)
  }

  lemma {:induction false} EntriesOfEvents(events: seq<Event>, node: string)
    ensures Map(EventOf, Entries(events, node)) == Filter(OnNode(node), events)
  {
    if events != [] {
      var n := |events| - 1;
      EntriesOfEvents(events[..n], node);
      MapAppend(EventOf, Entries(events[..n], node), EntryAt(events[n], n, node));
      assert events == events[..n] + [events[n]];
      FilterSnoc(OnNode(node), events[..n], events[n]);
    }
  }

  lemma {:induction false} EntriesIndexed(events: seq<Event>, node: string)
    ensures Pairwise(IndexBefore, Entries(events, node))
    ensures forall i | 0 <= i < |Entries(events, node)| :: Entries(events, node)[i].index < |events|
  {
    if events != [] {
      EntriesIndexed(events[..|events| - 1], node);
    }
  }

  lemma OrdersAgree(x: Entry, y: Entry)
    ensures KeyLe(OrderOf)(EventOf(x), EventOf(y)) == KeyLe(OrderOfEntry)(x, y)
  {
    assert KeyLe(OrderOf)(EventOf(x), EventOf(y)) == (OrderOf(EventOf(x)) <= OrderOf(EventOf(y)));
    assert KeyLe(OrderOfEntry)(x, y) == (OrderOfEntry(x) <= OrderOfEntry(y));
  }

  /** Sorting the entries by time and index is the stable sort of the events by time. */
  lemma SortedEntries(events: seq<Event>, node: string)
    ensures Map(EventOf, Sort(EntryLe, Entries(events, node))) == NodeEvents(events, node)
  {
    var entries := Entries(events, node);
    EntriesIndexed(events, node);
    forall i, j | 0 <= i < j < |entries|
      ensures EntryLe(entries[i], entries[j]) == KeyLe(OrderOfEntry)(entries[i], entries[j])
    {
      assert IndexBefore(entries[i], entries[j]);
    }
    SortAgrees(EntryLe, KeyLe(OrderOfEntry), entries);
    forall x: Entry, y: Entry ensures KeyLe(OrderOf)(EventOf(x), EventOf(y)) == KeyLe(OrderOfEntry)(x, y) {
      OrdersAgree(x, y);
    }
    SortMap(KeyLe(OrderOfEntry), KeyLe(OrderOf), EventOf, entries);
    EntriesOfEvents(events, node);
  }

  /** The list of a node so far; a node without one has an empty list. */
  function ListOf(byNode: map<string, seq<Entry>>, node: string): seq<Entry>
  {
    if node in byNode then byNode[node] else []
  }

  /** The lists hold the entries of their nodes. */
  ghost predicate Listed(events: seq<Event>, byNode: map<string, seq<Entry>>)
  {
    byNode.Keys == Nodes(events) && forall node :: ListOf(byNode, node) == Entries(events, node)
  }

  lemma EntriesNext(events: seq<Event>, event: Event, node: string)
    ensures Entries(events + [event], node) == Entries(events, node) + EntryAt(event, |events|, node)
  {
    assert (events + [event])[..|events|] == events;
  }

  lemma NodesNext(events: seq<Event>, event: Event)
    ensures Nodes(events + [event]) == Nodes(events) + if event.node.Some? then {event.node.value} else {}
  {
    var all := events + [event];
    assert forall e :: e in all <==> e in events || e == event;
  }

  lemma ListedNext(events: seq<Event>, event: Event, byNode: map<string, seq<Entry>>, grown: map<string, seq<Entry>>)
    requires Listed(events, byNode)
    requires grown == if event.node.None? then byNode
      else byNode[event.node.value := ListOf(byNode, event.node.value) + [Entry(|events|, event)]]
    ensures Listed(events + [event], grown)
  {
    NodesNext(events, event);
    forall node ensures ListOf(grown, node) == Entries(events + [event], node) {
      EntriesNext(events, event, node);
      assert ListOf(byNode, node) == Entries(events, node);
    }
  }

  method ListEventsByNode(events: seq<Event>) returns (byNode: map<string, seq<Entry>>)
    ensures Listed(events, byNode)
  {
    byNode := map[];
    for index := 0 to |events|
      invariant Listed(events[..index], byNode)
    {
      var event := events[index];
      assert events[..index + 1] == events[..index] + [event];
      ghost var was := byNode;
      if event.node.Some? {
        byNode := byNode[event.node.value := ListOf(byNode, event.node.value) + [Entry(index, event)]];
      }
      ListedNext(events[..index], event, was, byNode);
    }
    assert events[..|events|] == events;
  }

  method GroupEvalEventsByNode(events: seq<Event>) returns (byNode: map<string, seq<Entry>>)
    ensures EventsOf(byNode) == GroupEvents(events)
  {
    var lists := ListEventsByNode(events);
    byNode := SortLists(lists);
    SortedLists(events, lists, byNode);
  }

  lemma SortedLists(events: seq<Event>, lists: map<string, seq<Entry>>, byNode: map<string, seq<Entry>>)
    requires Listed(events, lists) && byNode.Keys == lists.Keys
    requires forall node | node in byNode :: byNode[node] == Sort(EntryLe, lists[node])
    ensures EventsOf(byNode) == GroupEvents(events)
  {
    forall node | node in byNode ensures Map(EventOf, byNode[node]) == NodeEvents(events, node) {
      SortedListOf(events, lists, node);
    }
    assert EventsOf(byNode).Keys == GroupEvents(events).Keys;
  }

  lemma SortedListOf(events: seq<Event>, lists: map<string, seq<Entry>>, node: string)
    requires Listed(events, lists) && node in lists
    ensures Map(EventOf, Sort(EntryLe, lists[node])) == NodeEvents(events, node)
  {
    assert ListOf(lists, node) == Entries(events, node);
    SortedEntries(events, node);
  }

  /** Every list is sorted in place. */
  method SortLists(lists: map<string, seq<Entry>>) returns (byNode: map<string, seq<Entry>>)
    ensures byNode.Keys == lists.Keys
    ensures forall node | node in byNode :: byNode[node] == Sort(EntryLe, lists[node])
  {
    byNode := lists;
    var nodes := lists.Keys;
    while nodes != {}
      invariant nodes <= byNode.Keys == lists.Keys
      invariant forall node | node in byNode :: byNode[node] == if node in nodes then lists[node] else Sort(EntryLe, lists[node])
      decreases nodes
    {
      var node :| node in nodes;
      nodes := nodes - {node};
      byNode := byNode[node := Sort(EntryLe, byNode[node])];
    }
  }

  // ----- what the groups say

  predicate IsSettled(e: Event) { e.to.Some? && e.to.value != "pending" && e.to.value != "running" }
  predicate IsDone(e: Event) { e.to == Some("done") || e.to == Some("no-op") }
  predicate IsBlocked(e: Event) { e.to == Some("blocked") }
  predicate IsProtocolFailure(e: Event) { e.error == Some("protocol_failure") }

  /** The last event whose status has settled. */
  function TerminalOf(events: seq<Event>): Option<Event>
  {
    if events == [] then None
    else if IsSettled(events[|events| - 1]) then Some(events[|events| - 1])
    else TerminalOf(events[..|events| - 1])
  }

  method TerminalEvalEventOf(entries: seq<Entry>) returns (terminal: Option<Event>)
    ensures terminal == TerminalOf(Map(EventOf, entries))
  {
    var index := |entries| - 1;
    assert Map(EventOf, entries)[..|entries|] == Map(EventOf, entries);
    while index >= 0
      invariant -1 <= index < |entries|
      invariant TerminalOf(Map(EventOf, entries)) == TerminalOf(Map(EventOf, entries)[..index + 1])
    {
      var event := entries[index].event;
      if event.to.Some? && event.to.value != "pending" && event.to.value != "running" {
        return Some(event);
      }
      assert Map(EventOf, entries)[..index + 1][..index] == Map(EventOf, entries)[..index];
      index := index - 1;
    }
    terminal := None;
  }

  /** The terminal event of every node that has one. */
  function Terminals(byNode: ByNode): map<string, Event>
  {
    map node | node in byNode && TerminalOf(byNode[node]).Some? :: TerminalOf(byNode[node]).value
  }

  function Closed(terminals: map<string, Event>): set<string>
  {
    set node | node in terminals && IsDone(terminals[node])
  }

  function Blocked(terminals: map<string, Event>): set<string>
  {
    set node | node in terminals && IsBlocked(terminals[node])
  }

  function Revisions(terminals: map<string, Event>): string -> real
  {
    (node: string) => if node in terminals && terminals[node].revisions.Some? then terminals[node].revisions.value else 0.0
  }

  /** The first recorded verdict. */
  function FirstVerdict(events: seq<Event>): Option<string>
  {
    if events == [] then None else if events[0].verdict.Some? then events[0].verdict else FirstVerdict(events[1..])
  }

  /** One for every gated node whose first verdict passed, zero for every other gated node. */
  function Passes(byNode: ByNode): map<string, nat>
  {
    map node | node in byNode && FirstVerdict(byNode[node]).Some? :: if FirstVerdict(byNode[node]).value == "pass" then 1 else 0
  }

  function RuntimesOf(events: seq<Event>): set<string>
  {
    set e | e in events && e.phase == Some("worker") && e.runtime.Some? :: e.runtime.value
  }

  function WorkerRuntimes(byNode: ByNode): map<string, set<string>>
  {
    map node | node in byNode && |RuntimesOf(byNode[node])| > 0 :: RuntimesOf(byNode[node])
  }

  function FailedOver(runtimes: map<string, set<string>>): set<string>
  {
    set node | node in runtimes && |runtimes[node]| > 1
  }

  // ----- the span of the recording

  /** How many events had a readable time, and the earliest and latest of them. */
  datatype Clock = Clock(count: nat, earliest: int, latest: int)

  function Tick(c: Clock, e: Event): Clock
  {
    if e.atMs.None? then c else
    var at := e.atMs.value;
    Clock(c.count + 1, if c.count == 0 || at < c.earliest then at else c.earliest, if c.count == 0 || at > c.latest then at else c.latest)
  }

  function ClockOf(events: seq<Event>): Clock { Fold(Tick, Clock(0, 0, 0), events) }

  predicate IsTimed(e: Event) { e.atMs.Some? }

  /** The clock counts the timed events and its bounds are the least and greatest of their times. */
  lemma {:induction false} ClockBounds(events: seq<Event>)
    ensures var c := ClockOf(events);
      && (c.count > 0 <==> exists e :: e in events && IsTimed(e))
      && (forall e | e in events && IsTimed(e) :: c.earliest <= e.atMs.value <= c.latest)
      && (c.count > 0 ==> (exists e :: e in events && e.atMs == Some(c.earliest)) && (exists e :: e in events && e.atMs == Some(c.latest)))
  {
    if events != [] {
      var n := |events| - 1;
      ClockBounds(events[..n]);
      assert forall e :: e in events <==> e in events[..n] || e == events[n];
    }
  }

  /** Seconds from the earliest to the latest time; fewer than two times span nothing. */
  function SpanSeconds(c: Clock): Option<real>
  {
    if c.count < 2 then None else Some((c.latest - c.earliest) as real / 1000.0)
  }

  method EvalEventSpanSecondsOf(events: seq<Event>) returns (span: Option<real>)
    ensures span == SpanSeconds(ClockOf(events))
  {
    var earliest, latest, count := 0, 0, 0;
    for i := 0 to |events|
      invariant Clock(count, earliest, latest) == ClockOf(events[..i])
    {
      assert events[..i + 1] == events[..i] + [events[i]];
      FoldStep(Tick, Clock(0, 0, 0), events[..i], events[i]);
      if events[i].atMs.None? {
        continue;
      }
      var atMs := events[i].atMs.value;
      if count == 0 || atMs < earliest {
        earliest := atMs;
      }
      if count == 0 || atMs > latest {
        latest := atMs;
      }
      count := count + 1;
    }
    assert events[..|events|] == events;
    span := if count < 2 then None else Some((latest - earliest) as real / 1000.0);
  }

  // ----- usage

  predicate HasCost(u: Usage) { u.costUsd.Some? && u.costProvenance != Some("unknown") }

  /** The known cost, how many records carry one, and the nodes they belong to. */
  datatype Spend = Spend(total: real, count: nat, nodeIds: set<string>)

  function AddUsage(s: Spend, u: Usage): Spend
  {
    if !HasCost(u) then s else
    Spend(s.total + u.costUsd.value, s.count + 1, s.nodeIds + if u.nodeId.Some? && u.nodeId.value != "" then {u.nodeId.value} else {})
  }

  function SpendOf(usage: seq<Usage>): Spend { Fold(AddUsage, Spend(0.0, 0, {}), usage) }

  /** A node counts as costed exactly when some record reports a known cost for it. */
  lemma {:induction false} CostedNodes(usage: seq<Usage>, node: string)
    ensures node in SpendOf(usage).nodeIds <==> node != "" && exists u :: u in usage && HasCost(u) && u.nodeId == Some(node)
    ensures SpendOf(usage).count == |Filter(HasCost, usage)|
  {
    if usage != [] {
      var n := |usage| - 1;
      CostedNodes(usage[..n], node);
      assert usage == usage[..n] + [usage[n]];
      assert forall u :: u in usage <==> u in usage[..n] || u == usage[n];
      FilterAppend(HasCost, usage[..n], [usage[n]]);
      FilterOne(HasCost, usage[n]);
    }
  }

  function JudgedNodes(usage: seq<Usage>): set<string>
  {
    set u | u in usage && u.role == Some("judge") && u.nodeId.Some? :: u.nodeId.value
  }

  method EvalUsageCostOf(usage: seq<Usage>) returns (total: real, count: nat, nodeIds: set<string>)
    ensures Spend(total, count, nodeIds) == SpendOf(usage)
  {
    total, count, nodeIds := 0.0, 0, {};
    for i := 0 to |usage|
      invariant Spend(total, count, nodeIds) == SpendOf(usage[..i])
    {
      var record := usage[i];
      assert usage[..i + 1] == usage[..i] + [record];
      FoldStep(AddUsage, Spend(0.0, 0, {}), usage[..i], record);
      if record.costUsd.Some? && record.costProvenance != Some("unknown") {
        total := total + record.costUsd.value;
        count := count + 1;
        if record.nodeId.Some? && record.nodeId.value != "" {
          nodeIds := nodeIds + {record.nodeId.value};
        }
      }
    }
    assert usage[..|usage|] == usage;
  }

  // ----- the report

  function IsKept(excluded: set<string>): Event -> bool { (e: Event) => !(e.runId.Some? && e.runId.value in excluded) }

  /** The events of the runs that are not excluded. */
  function Without(events: seq<Event>, excluded: set<string>): seq<Event> { Filter(IsKept(excluded), events) }

  /** Everything the report is computed from. */
  datatype Evidence = Evidence(
    all: ByNode, eligible: ByNode, clock: Clock, protocolFailures: nat, spend: Spend, judged: set<string>, usageRecords: nat)

  function EvidenceOf(events: seq<Event>, usage: seq<Usage>, excluded: set<string>): Evidence
  {
    Evidence(
      GroupEvents(events), GroupEvents(Without(events, excluded)), ClockOf(events), |Filter(IsProtocolFailure, events)|,
      SpendOf(usage), JudgedNodes(usage), |usage|)
  }

  /** A missing count or value is null, never zero. */
  function EvalMeasured(direction: Direction, count: nat, value: Option<real>): Measured
  {
    Measured(direction, count, if count == 0 || value.None? then None else Some(Round4(value.value)), {})
  }

  function EvalRate(direction: Direction, numerator: nat, denominator: nat, excluded: set<string>): Rate
  {
    Rate(direction, numerator, denominator,
         if denominator == 0 then None else Some(Round4(numerator as real / denominator as real)), excluded, {})
  }

  function EvalGroupedRate(direction: Direction, passes: map<string, nat>, count: nat, excluded: set<string>): GroupedRate
  {
    GroupedRate(direction, count, passes, if count == 0 || |passes| == 0 then None else Some(passes), excluded, {})
  }

  function GateRate(eligible: ByNode, excluded: set<string>): GroupedRate
  {
    EvalGroupedRate(Up, Passes(eligible), |Passes(eligible)|, excluded)
  }

  function Over(sum: real, count: nat): Option<real>
  {
    if count == 0 then None else Some(sum / count as real)
  }

  ghost function RevisionsSum(terminals: map<string, Event>): real
  {
    SumOver(Revisions(terminals), Closed(terminals))
  }

  function CostPerClosed(all: ByNode, spend: Spend): Measured
  {
    var costed := |Closed(Terminals(all)) * spend.nodeIds|;
    EvalMeasured(Down, costed, Over(spend.total, costed))
  }

  ghost function RevisionsPerClosed(all: ByNode): Measured
  {
    var terminals := Terminals(all);
    EvalMeasured(Down, |Closed(terminals)|, Over(RevisionsSum(terminals), |Closed(terminals)|))
  }

  function WallClockPerClosed(all: ByNode, clock: Clock): Measured
  {
    var closed, span := |Closed(Terminals(all))|, SpanSeconds(clock);
    EvalMeasured(Down, closed, if span.None? then None else Over(span.value, closed))
  }

  function JudgedRate(all: ByNode, judged: set<string>, excluded: set<string>): Rate
  {
    var closed := Closed(Terminals(all));
    EvalRate(Up, |closed * judged|, |closed|, excluded)
  }

  function BlockedRate(eligible: ByNode, excluded: set<string>): Rate
  {
    EvalRate(Down, |Blocked(Terminals(eligible))|, |Terminals(eligible)|, excluded)
  }

  function FailoverRate(eligible: ByNode, excluded: set<string>): Rate
  {
    EvalRate(Down, |FailedOver(WorkerRuntimes(eligible))|, |WorkerRuntimes(eligible)|, excluded)
  }

  ghost function ReportOf(ev: Evidence, excluded: set<string>): Report
  {
    Report(
      CostPerClosed(ev.all, ev.spend),
      GateRate(ev.eligible, excluded),
      JudgedRate(ev.all, ev.judged, excluded),
      RevisionsPerClosed(ev.all),
      BlockedRate(ev.eligible, excluded),
      WallClockPerClosed(ev.all, ev.clock),
      FailoverRate(ev.eligible, excluded),
      EvalRate(Down, ev.protocolFailures, ev.usageRecords, excluded))
  }

  // ----- missing sources

  predicate EndsWith(s: string, suffix: string) { |suffix| <= |s| && s[|s| - |suffix|..] == suffix }

  predicate Names(source: string, suffix: string) { EndsWith(source, "." + suffix) || source == suffix }

  const EVENTS := "events.jsonl"
  const USAGE := "usage.jsonl"

  function Lost(missing: set<string>, suffixes: set<string>): set<string>
  {
    set source | source in missing && exists suffix :: suffix in suffixes && Names(source, suffix)
  }

  function LoseMeasured(m: Measured, lost: set<string>): Measured
  {
    if lost == {} then m else m.(value := None, missingSources := lost)
  }

  function LoseRate(r: Rate, lost: set<string>): Rate
  {
    if lost == {} then r else r.(value := None, missingSources := lost)
  }

  function LoseGrouped(g: GroupedRate, lost: set<string>): GroupedRate
  {
    if lost == {} then g else g.(value := None, missingSources := lost)
  }

  /** Each indicator an absent source feeds is null and names the source. */
  function ApplyMissing(r: Report, missing: set<string>): Report
  {
    var events, usage, both := Lost(missing, {EVENTS}), Lost(missing, {USAGE}), Lost(missing, {EVENTS, USAGE});
    Report(
      LoseMeasured(r.costPerClosedCheckpoint, usage),
      LoseGrouped(r.firstPassGateRate, events),
      LoseRate(r.judgeInvocationRate, both),
      LoseMeasured(r.revisionsPerDone, events),
      LoseRate(r.blockedContextRate, events),
      LoseMeasured(r.wallClockPerClosedCheckpoint, events),
      LoseRate(r.providerFailoverRate, events),
      LoseRate(r.protocolFailureRate, both))
  }

  /** The report of a list of events and a list of usage records. */
  ghost function Project(events: seq<Event>, usage: seq<Usage>, missing: set<string>, excluded: set<string>): Report
  {
    ApplyMissing(ReportOf(EvidenceOf(events, usage, excluded), excluded), missing)
  }

  // ----- the code of the projection

  /** The records that are JSON objects. */
  function Objects<T>(raw: seq<Option<T>>): seq<T>
  {
    if raw == [] then [] else Objects(raw[..|raw| - 1]) + if raw[|raw| - 1].Some? then [raw[|raw| - 1].value] else []
  }

  method TerminalByNode(byNode: map<string, seq<Entry>>) returns (terminals: map<string, Event>)
    ensures terminals == Terminals(EventsOf(byNode))
  {
    terminals := map[];
    var nodes := byNode.Keys;
    while nodes != {}
      invariant nodes <= byNode.Keys
      invariant forall node | node in terminals :: node in Terminals(EventsOf(byNode)) && node !in nodes && terminals[node] == Terminals(EventsOf(byNode))[node]
      invariant forall node | node in Terminals(EventsOf(byNode)) && node !in nodes :: node in terminals
      decreases nodes
    {
      var node :| node in nodes;
      nodes := nodes - {node};
      var terminal := TerminalEvalEventOf(byNode[node]);
      if terminal.Some? {
        terminals := terminals[node := terminal.value];
      }
    }
  }

  method EvalJudgeInvocationNodeIdsOf(usage: seq<Usage>) returns (ids: set<string>)
    ensures ids == JudgedNodes(usage)
  {
    ids := {};
    for i := 0 to |usage|
      invariant ids == JudgedNodes(usage[..i])
    {
      assert usage[..i + 1] == usage[..i] + [usage[i]];
      if usage[i].role == Some("judge") && usage[i].nodeId.Some? {
        ids := ids + {usage[i].nodeId.value};
      }
    }
    assert usage[..|usage|] == usage;
  }

  method EvalFirstPassGateRateOf(byNode: map<string, seq<Entry>>) returns (passes: map<string, nat>, count: nat)
    ensures passes == Passes(EventsOf(byNode)) && count == |passes|
  {
    passes, count := map[], 0;
    var nodes := byNode.Keys;
    while nodes != {}
      invariant nodes <= byNode.Keys && count == |passes| && nodes !! passes.Keys
      invariant forall node | node in passes :: node in Passes(EventsOf(byNode)) && passes[node] == Passes(EventsOf(byNode))[node]
      invariant forall node | node in Passes(EventsOf(byNode)) && node !in nodes :: node in passes
      decreases nodes
    {
      var node :| node in nodes;
      nodes := nodes - {node};
      var first := FirstVerdict(Map(EventOf, byNode[node]));
      if first.Some? {
        count := count + 1;
        passes := passes[node := if first.value == "pass" then 1 else 0];
      }
    }
  }

  method WorkerRuntimesOf(entries: seq<Entry>) returns (runtimes: set<string>)
    ensures runtimes == RuntimesOf(Map(EventOf, entries))
  {
    runtimes := {};
    ghost var events := Map(EventOf, entries);
    for i := 0 to |entries|
      invariant runtimes == RuntimesOf(events[..i])
    {
      var event := entries[i].event;
      assert events[..i + 1] == events[..i] + [event];
      if event.phase == Some("worker") && event.runtime.Some? {
        runtimes := runtimes + {event.runtime.value};
      }
    }
    assert events[..|entries|] == events;
  }

  method EvalWorkerRuntimesByNodeOf(byNode: map<string, seq<Entry>>) returns (workers: map<string, set<string>>)
    ensures workers == WorkerRuntimes(EventsOf(byNode))
  {
    workers := map[];
    var nodes := byNode.Keys;
    while nodes != {}
      invariant nodes <= byNode.Keys && nodes !! workers.Keys
      invariant forall node | node in workers :: node in WorkerRuntimes(EventsOf(byNode)) && workers[node] == WorkerRuntimes(EventsOf(byNode))[node]
      invariant forall node | node in WorkerRuntimes(EventsOf(byNode)) && node !in nodes :: node in workers
      decreases nodes
    {
      var node :| node in nodes;
      nodes := nodes - {node};
      var runtimes := WorkerRuntimesOf(byNode[node]);
      if |runtimes| > 0 {
        workers := workers[node := runtimes];
      }
    }
  }

  method SumRevisions(closed: set<string>, terminals: map<string, Event>) returns (sum: real)
    ensures sum == SumOver(Revisions(terminals), closed)
  {
    sum := 0.0;
    var rest := closed;
    while rest != {}
      invariant sum + SumOver(Revisions(terminals), rest) == SumOver(Revisions(terminals), closed)
      decreases rest
    {
      var node :| node in rest;
      SumOverRemove(Revisions(terminals), rest, node);
      rest := rest - {node};
      sum := sum + Revisions(terminals)(node);
    }
  }

  /** The indicators that count closed checkpoints of the whole campaign. */
  method ClosedIndicators(allByNode: map<string, seq<Entry>>, events: seq<Event>, usage: seq<Usage>, excluded: set<string>)
    returns (cost: Measured, judge: Rate, revisions: Measured, wallClock: Measured)
    ensures cost == CostPerClosed(EventsOf(allByNode), SpendOf(usage))
    ensures judge == JudgedRate(EventsOf(allByNode), JudgedNodes(usage), excluded)
    ensures revisions == RevisionsPerClosed(EventsOf(allByNode))
    ensures wallClock == WallClockPerClosed(EventsOf(allByNode), ClockOf(events))
  {
    var terminalByNode := TerminalByNode(allByNode);
    var closed := Closed(terminalByNode);
    var total, count, nodeIds := EvalUsageCostOf(usage);
    var costed := closed * nodeIds;
    var judged := EvalJudgeInvocationNodeIdsOf(usage);
    var revisionsSum := SumRevisions(closed, terminalByNode);
    var span := EvalEventSpanSecondsOf(events);
    cost := EvalMeasured(Down, |costed|, Over(total, |costed|));
    judge := EvalRate(Up, |closed * judged|, |closed|, excluded);
    revisions := EvalMeasured(Down, |closed|, Over(revisionsSum, |closed|));
    wallClock := EvalMeasured(Down, |closed|, if span.None? then None else Over(span.value, |closed|));
  }

  /** The indicators of the nodes that are not excluded. */
  method NodeIndicators(byNode: map<string, seq<Entry>>, excluded: set<string>)
    returns (gate: GroupedRate, blocked: Rate, failover: Rate)
    ensures gate == GateRate(EventsOf(byNode), excluded)
    ensures blocked == BlockedRate(EventsOf(byNode), excluded)
    ensures failover == FailoverRate(EventsOf(byNode), excluded)
  {
    var gates, count := EvalFirstPassGateRateOf(byNode);
    var eligibleTerminalByNode := TerminalByNode(byNode);
    var workers := EvalWorkerRuntimesByNodeOf(byNode);
    gate := EvalGroupedRate(Up, gates, count, excluded);
    blocked := EvalRate(Down, |Blocked(eligibleTerminalByNode)|, |eligibleTerminalByNode|, excluded);
    failover := EvalRate(Down, |FailedOver(workers)|, |workers|, excluded);
  }

  method ProjectEvalIndicators(rawEvents: seq<Option<Event>>, rawUsage: seq<Option<Usage>>, missing: set<string>, excluded: set<string>)
    returns (report: Report)
    ensures report == Project(Objects(rawEvents), Objects(rawUsage), missing, excluded)
  {
    var events, usage := Objects(rawEvents), Objects(rawUsage);
    var byNode := GroupEvalEventsByNode(Filter(IsKept(excluded), events));
    var allByNode := GroupEvalEventsByNode(events);
    var cost, judge, revisions, wallClock := ClosedIndicators(allByNode, events, usage, excluded);
    var gate, blocked, failover := NodeIndicators(byNode, excluded);
    var protocol := EvalRate(Down, |Filter(IsProtocolFailure, events)|, |usage|, excluded);
    report := ApplyMissing(Report(cost, gate, judge, revisions, blocked, wallClock, failover, protocol), missing);
  }

  // ----- the report is a function of the evidence, not of its arrival order

  /** The same events, with those of one node and one time in the same order. */
  ghost predicate SameRecord(events: seq<Event>, other: seq<Event>)
  {
    multiset(events) == multiset(other) && forall node :: SameTies(OrderOf, Filter(OnNode(node), events), Filter(OnNode(node), other))
  }

  lemma GroupsAgree(events: seq<Event>, other: seq<Event>)
    requires SameRecord(events, other)
    ensures GroupEvents(events) == GroupEvents(other)
  {
    MembersOfPermuted(events, other);
    assert Nodes(events) == Nodes(other);
    forall node | node in Nodes(events) ensures NodeEvents(events, node) == NodeEvents(other, node) {
      SortByTies(OrderOf, Filter(OnNode(node), events), Filter(OnNode(node), other));
    }
  }

  /** Ties of kept events are the kept among the ties. */
  lemma TiesOfKept(events: seq<Event>, keep: Event -> bool, node: string, k: int)
    ensures Ties(OrderOf, k, Filter(OnNode(node), Filter(keep, events))) == Filter(keep, Ties(OrderOf, k, Filter(OnNode(node), events)))
  {
    FilterCommutes(OnNode(node), keep, events);
    FilterCommutes(AtKey(OrderOf, k), keep, Filter(OnNode(node), events));
  }

  lemma KeptAgree(events: seq<Event>, other: seq<Event>, keep: Event -> bool)
    requires SameRecord(events, other)
    ensures SameRecord(Filter(keep, events), Filter(keep, other))
  {
    FilterPermuted(keep, events, other);
    forall node, k ensures Ties(OrderOf, k, Filter(OnNode(node), Filter(keep, events))) == Ties(OrderOf, k, Filter(OnNode(node), Filter(keep, other))) {
      TiesOfKept(events, keep, node, k);
      TiesOfKept(other, keep, node, k);
      assert SameTies(OrderOf, Filter(OnNode(node), events), Filter(OnNode(node), other));
    }
  }

  lemma ClockIgnoresOrder(events: seq<Event>, other: seq<Event>)
    requires multiset(events) == multiset(other)
    ensures ClockOf(events) == ClockOf(other)
  {
    FoldPermuted(Tick, Clock(0, 0, 0), events, other);
  }

  lemma UsageCommutes(s: Spend, u: Usage, v: Usage)
    ensures AddUsage(AddUsage(s, u), v) == AddUsage(AddUsage(s, v), u)
  {
  }

  lemma UsageIgnoresOrder(usage: seq<Usage>, other: seq<Usage>)
    requires multiset(usage) == multiset(other)
    ensures SpendOf(usage) == SpendOf(other) && JudgedNodes(usage) == JudgedNodes(other) && |usage| == |other|
  {
    MembersOfPermuted(usage, other);
    forall s, u, v ensures AddUsage(AddUsage(s, u), v) == AddUsage(AddUsage(s, v), u) {
      UsageCommutes(s, u, v);
    }
    FoldPermuted(AddUsage, Spend(0.0, 0, {}), usage, other);
  }

  /**
   * The projection is a function of the evidence: reordering events, as long as those of one node
   * and one time keep their order, and reordering usage records, in any way, give the same report.
   */
  lemma ProjectionIgnoresOrder(events: seq<Event>, other: seq<Event>, usage: seq<Usage>, otherUsage: seq<Usage>,
                               missing: set<string>, excluded: set<string>)
    requires SameRecord(events, other) && multiset(usage) == multiset(otherUsage)
    ensures Project(events, usage, missing, excluded) == Project(other, otherUsage, missing, excluded)
  {
    assert EvidenceOf(events, usage, excluded) == EvidenceOf(other, otherUsage, excluded) by {
      GroupsAgree(events, other);
      KeptAgree(events, other, IsKept(excluded));
      GroupsAgree(Without(events, excluded), Without(other, excluded));
      ClockIgnoresOrder(events, other);
      FilterPermuted(IsProtocolFailure, events, other);
      UsageIgnoresOrder(usage, otherUsage);
    }
  }

  // ----- exclusion

  lemma WithoutTwice(events: seq<Event>, a: set<string>, b: set<string>)
    ensures Without(Without(events, a), b) == Without(events, a + b)
  {
    FilterBoth(IsKept(a), IsKept(b), IsKept(a + b), events);
  }

  /** A rate differs between exclusion sets only in the run names it lists. */
  lemma RateNamesOnly(all: ByNode, judged: set<string>, failures: nat, records: nat, lost: set<string>, a: set<string>, b: set<string>)
    ensures LoseRate(JudgedRate(all, judged, a), lost).(excludedRunIds := b) == LoseRate(JudgedRate(all, judged, b), lost)
    ensures LoseRate(EvalRate(Down, failures, records, a), lost).(excludedRunIds := b) == LoseRate(EvalRate(Down, failures, records, b), lost)
  {
  }

  lemma NodeRateNamesOnly(eligible: ByNode, lost: set<string>, a: set<string>, b: set<string>)
    ensures LoseRate(BlockedRate(eligible, a), lost).(excludedRunIds := b) == LoseRate(BlockedRate(eligible, b), lost)
    ensures LoseRate(FailoverRate(eligible, a), lost).(excludedRunIds := b) == LoseRate(FailoverRate(eligible, b), lost)
    ensures LoseGrouped(GateRate(eligible, a), lost).(excludedRunIds := b) == LoseGrouped(GateRate(eligible, b), lost)
  {
  }

  /**
   * Excluding runs from the report is deleting their events from the node rates: first-pass,
   * blocked and failover rates with runs `a` and `b` excluded are those of the event list without
   * the runs `a` and with `b` excluded, but for the run names they list.
   */
  lemma ExclusionDeletesEvents(events: seq<Event>, usage: seq<Usage>, missing: set<string>, a: set<string>, b: set<string>)
    ensures var r, q := Project(events, usage, missing, a + b), Project(Without(events, a), usage, missing, b);
      && r.firstPassGateRate.(excludedRunIds := b) == q.firstPassGateRate
      && r.blockedContextRate.(excludedRunIds := b) == q.blockedContextRate
      && r.providerFailoverRate.(excludedRunIds := b) == q.providerFailoverRate
  {
    WithoutTwice(events, a, b);
    NodeRateNamesOnly(GroupEvents(Without(events, a + b)), Lost(missing, {EVENTS}), a + b, b);
  }

  /**
   * Exclusion leaves campaign totals alone: cost, revisions and wall clock do not change for any
   * exclusion set, nor do the judge and protocol rates but for the run names they list.
   */
  lemma ExclusionKeepsTotals(events: seq<Event>, usage: seq<Usage>, missing: set<string>, a: set<string>, b: set<string>)
    ensures var r, q := Project(events, usage, missing, a), Project(events, usage, missing, b);
      && r.costPerClosedCheckpoint == q.costPerClosedCheckpoint
      && r.revisionsPerDone == q.revisionsPerDone
      && r.wallClockPerClosedCheckpoint == q.wallClockPerClosedCheckpoint
      && r.judgeInvocationRate.(excludedRunIds := b) == q.judgeInvocationRate
      && r.protocolFailureRate.(excludedRunIds := b) == q.protocolFailureRate
  {
    var ev := EvidenceOf(events, usage, a);
    RateNamesOnly(ev.all, ev.judged, ev.protocolFailures, ev.usageRecords, Lost(missing, {EVENTS, USAGE}), a, b);
  }

  // ----- what the values mean

  /** The terminal event is the last settled one; there is none exactly when no event has settled. */
  lemma {:induction false} TerminalIsLastSettled(events: seq<Event>)
    ensures TerminalOf(events).None? <==> forall i | 0 <= i < |events| :: !IsSettled(events[i])
    ensures TerminalOf(events).Some? ==> exists i | 0 <= i < |events| ::
      events[i] == TerminalOf(events).value && IsSettled(events[i]) && forall j | i < j < |events| :: !IsSettled(events[j])
  {
    if events != [] && !IsSettled(events[|events| - 1]) {
      TerminalIsLastSettled(events[..|events| - 1]);
    }
  }

  /** A gate's verdict is the first recorded one. */
  lemma {:induction false} FirstVerdictIsFirst(events: seq<Event>)
    ensures FirstVerdict(events).None? <==> forall i | 0 <= i < |events| :: events[i].verdict.None?
    ensures FirstVerdict(events).Some? ==> exists i | 0 <= i < |events| ::
      events[i].verdict == FirstVerdict(events) && forall j | 0 <= j < i :: events[j].verdict.None?
  {
    if events != [] && events[0].verdict.None? {
      var rest := events[1..];
      FirstVerdictIsFirst(rest);
      if FirstVerdict(rest).Some? {
        var i :| 0 <= i < |rest| && rest[i].verdict == FirstVerdict(rest) && forall j | 0 <= j < i :: rest[j].verdict.None?;
        assert events[i + 1].verdict == FirstVerdict(events);
        forall j | 0 <= j < i + 1 ensures events[j].verdict.None? {
          assert j == 0 || events[j] == rest[j - 1];
        }
      }
    }
  }

  /** A rate is unmeasured exactly when nothing was counted or a source is lost, and otherwise a fraction. */
  predicate IsFraction(r: Rate, lost: set<string>)
  {
    && r.numerator <= r.denominator
    && (r.value.None? <==> r.denominator == 0 || lost != {})
    && (r.value.Some? ==> 0.0 <= r.value.value <= 1.0)
  }

  lemma RateIsFraction(direction: Direction, part: nat, whole: nat, excluded: set<string>, lost: set<string>)
    requires part <= whole
    ensures IsFraction(LoseRate(EvalRate(direction, part, whole, excluded), lost), lost)
  {
    if whole > 0 {
      var x := part as real / whole as real;
      assert 0.0 <= x <= 1.0 by {
        PartOfWhole(part as real, whole as real);
      }
      Round4OfFraction(x);
    }
  }

  /** The rates of closed, settled and worked nodes are fractions in every report. */
  lemma RatesAreFractions(events: seq<Event>, usage: seq<Usage>, missing: set<string>, excluded: set<string>)
    ensures var r := Project(events, usage, missing, excluded);
      && IsFraction(r.judgeInvocationRate, Lost(missing, {EVENTS, USAGE}))
      && IsFraction(r.blockedContextRate, Lost(missing, {EVENTS}))
      && IsFraction(r.providerFailoverRate, Lost(missing, {EVENTS}))
  {
    var all, eligible := GroupEvents(events), GroupEvents(Without(events, excluded));
    JudgedIsFraction(all, JudgedNodes(usage), excluded, Lost(missing, {EVENTS, USAGE}));
    NodeRatesAreFractions(eligible, excluded, Lost(missing, {EVENTS}));
  }

  /**
   * The protocol failure rate counts events over usage records: it is a fraction if and only if
   * there are no more failures than records.
   */
  lemma ProtocolRateExact(events: seq<Event>, usage: seq<Usage>, missing: set<string>, excluded: set<string>)
    ensures IsFraction(Project(events, usage, missing, excluded).protocolFailureRate, Lost(missing, {EVENTS, USAGE}))
      <==> |Filter(IsProtocolFailure, events)| <= |usage|
  {
    var failures, lost := |Filter(IsProtocolFailure, events)|, Lost(missing, {EVENTS, USAGE});
    if failures <= |usage| {
      RateIsFraction(Down, failures, |usage|, excluded, lost);
    }
  }

  /** Two failures beside one usage record make a rate of two. */
  lemma ProtocolRateMayExceedOne(record: Usage)
    ensures var failure := Event(None, None, None, None, None, None, Some("protocol_failure"), None, None);
      Project([failure, failure], [record], {}, {}).protocolFailureRate.value == Some(2.0)
  {
    var failure := Event(None, None, None, None, None, None, Some("protocol_failure"), None, None);
    FilterPair(IsProtocolFailure, failure, failure);
    assert Round(20000.0) == 20000;
    assert EvalRate(Down, 2, 1, {}).value == Some(2.0);
  }

  lemma JudgedIsFraction(all: ByNode, judged: set<string>, excluded: set<string>, lost: set<string>)
    ensures IsFraction(LoseRate(JudgedRate(all, judged, excluded), lost), lost)
  {
    var closed := Closed(Terminals(all));
    SubsetSize(closed * judged, closed);
    RateIsFraction(Up, |closed * judged|, |closed|, excluded, lost);
  }

  lemma NodeRatesAreFractions(eligible: ByNode, excluded: set<string>, lost: set<string>)
    ensures IsFraction(LoseRate(BlockedRate(eligible, excluded), lost), lost)
    ensures IsFraction(LoseRate(FailoverRate(eligible, excluded), lost), lost)
  {
    var terminals, workers := Terminals(eligible), WorkerRuntimes(eligible);
    SubsetSize(Blocked(terminals), terminals.Keys);
    assert |terminals.Keys| == |terminals|;
    RateIsFraction(Down, |Blocked(terminals)|, |terminals|, excluded, lost);
    SubsetSize(FailedOver(workers), workers.Keys);
    assert |workers.Keys| == |workers|;
    RateIsFraction(Down, |FailedOver(workers)|, |workers|, excluded, lost);
  }

  /** A mean of a sum over what was counted: unmeasured exactly when nothing was, or a source is lost. */
  ghost predicate IsMeanOf(m: Measured, sum: Option<real>, count: nat, lost: set<string>)
  {
    && m.direction == Down && m.count == count && m.missingSources == lost
    && (m.value.None? <==> count == 0 || sum.None? || lost != {})
    && (m.value.Some? ==> sum.value - 0.00005 * count as real <= m.value.value * count as real <= sum.value + 0.00005 * count as real)
  }

  lemma MeasuredIsMean(sum: real, count: nat, lost: set<string>)
    ensures IsMeanOf(LoseMeasured(EvalMeasured(Down, count, Over(sum, count)), lost), Some(sum), count, lost)
  {
    if count > 0 {
      MeanNear(sum, count);
    }
  }

  lemma WallClockIsMean(all: ByNode, clock: Clock, lost: set<string>)
    ensures IsMeanOf(LoseMeasured(WallClockPerClosed(all, clock), lost), SpanSeconds(clock), |Closed(Terminals(all))|, lost)
  {
    if SpanSeconds(clock).Some? {
      MeasuredIsMean(SpanSeconds(clock).value, |Closed(Terminals(all))|, lost);
    }
  }

  /**
   * The three totals of a report are means: known cost over the closed checkpoints that a provider
   * priced, and revisions and seconds over all closed checkpoints.
   */
  lemma TotalsAreMeans(events: seq<Event>, usage: seq<Usage>, missing: set<string>, excluded: set<string>)
    ensures var r, terminals := Project(events, usage, missing, excluded), Terminals(GroupEvents(events));
      var closed := Closed(terminals);
      && IsMeanOf(r.costPerClosedCheckpoint, Some(SpendOf(usage).total), |closed * SpendOf(usage).nodeIds|, Lost(missing, {USAGE}))
      && IsMeanOf(r.revisionsPerDone, Some(SumOver(Revisions(terminals), closed)), |closed|, Lost(missing, {EVENTS}))
      && IsMeanOf(r.wallClockPerClosedCheckpoint, SpanSeconds(ClockOf(events)), |closed|, Lost(missing, {EVENTS}))
  {
    var all, spend := GroupEvents(events), SpendOf(usage);
    var closed := Closed(Terminals(all));
    MeasuredIsMean(spend.total, |closed * spend.nodeIds|, Lost(missing, {USAGE}));
    MeasuredIsMean(RevisionsSum(Terminals(all)), |closed|, Lost(missing, {EVENTS}));
    WallClockIsMean(all, ClockOf(events), Lost(missing, {EVENTS}));
  }

  lemma NoGroups(excluded: set<string>)
    ensures GroupEvents([]) == map[] && GroupEvents(Without([], excluded)) == map[]
  {
    assert Nodes([]) == {};
    assert Without([], excluded) == [];
  }

  lemma NoNodes()
    ensures Closed(Terminals(map[])) == {} && Terminals(map[]) == map[] && Passes(map[]) == map[] && WorkerRuntimes(map[]) == map[]
  {
  }

  lemma NothingClosed(all: ByNode, spend: Spend, judged: set<string>, clock: Clock, excluded: set<string>)
    requires Closed(Terminals(all)) == {}
    ensures CostPerClosed(all, spend).value.None? && JudgedRate(all, judged, excluded).value.None?
    ensures RevisionsPerClosed(all).value.None? && WallClockPerClosed(all, clock).value.None?
  {
    assert {} * spend.nodeIds == {};
  }

  lemma NothingEligible(eligible: ByNode, excluded: set<string>)
    requires eligible == map[]
    ensures GateRate(eligible, excluded).value.None? && BlockedRate(eligible, excluded).value.None?
    ensures FailoverRate(eligible, excluded).value.None?
  {
    NoNodes();
  }

  /**
   * Without events every indicator but one is unmeasured, never a measured zero.  The exception is
   * the protocol failure rate: it is a measured zero when there are usage records and no source is
   * known to be missing.
   */
  lemma EmptyEvents(usage: seq<Usage>, missing: set<string>, excluded: set<string>)
    ensures var r := Project([], usage, missing, excluded);
      && r.costPerClosedCheckpoint.value.None? && r.firstPassGateRate.value.None? && r.judgeInvocationRate.value.None?
      && r.revisionsPerDone.value.None? && r.blockedContextRate.value.None? && r.wallClockPerClosedCheckpoint.value.None?
      && r.providerFailoverRate.value.None?
      && r.protocolFailureRate.value == if usage == [] || Lost(missing, {EVENTS, USAGE}) != {} then None else Some(0.0)
  {
    var ev := EvidenceOf([], usage, excluded);
    NoGroups(excluded);
    NoNodes();
    NothingClosed(ev.all, ev.spend, ev.judged, ev.clock, excluded);
    NothingEligible(ev.eligible, excluded);
    RateOfNone(Down, |usage|, excluded);
  }

  lemma RateOfNone(direction: Direction, whole: nat, excluded: set<string>)
    ensures EvalRate(direction, 0, whole, excluded).value == if whole == 0 then None else Some(0.0)
  {
    if whole > 0 {
      assert 0.0 / whole as real == 0.0;
    }
  }

  lemma NoSpend(all: ByNode, excluded: set<string>)
    ensures JudgedNodes([]) == {}
    ensures CostPerClosed(all, SpendOf([])).value.None?
    ensures JudgedRate(all, {}, excluded).value == if Closed(Terminals(all)) == {} then None else Some(0.0)
  {
    var closed := Closed(Terminals(all));
    assert closed * {} == {};
    assert closed == {} <==> |closed| == 0;
    RateOfNone(Up, |closed|, excluded);
  }

  /**
   * Without usage records cost and protocol failures are unmeasured.  The judge rate is not: it is
   * a measured zero when a checkpoint closed and no source is known to be missing.
   */
  lemma EmptyUsage(events: seq<Event>, missing: set<string>, excluded: set<string>)
    ensures var r := Project(events, [], missing, excluded);
      && r.costPerClosedCheckpoint.value.None? && r.protocolFailureRate.value.None?
      && r.judgeInvocationRate.value
        == if Closed(Terminals(GroupEvents(events))) == {} || Lost(missing, {EVENTS, USAGE}) != {} then None else Some(0.0)
  {
    NoSpend(GroupEvents(events), excluded);
  }

  // ----- merging run sources

  datatype Source = Source(events: seq<Event>, usage: seq<Usage>, missing: set<string>, excluded: set<string>)

  function AddSource(merged: Source, s: Source): Source
  {
    Source(merged.events + s.events, merged.usage + s.usage, merged.missing + s.missing, merged.excluded + s.excluded)
  }

  /** All records in source order, and every name once. */
  function MergeEvalRunSources(sources: seq<Source>): Source
  {
    Fold(AddSource, Source([], [], {}, {}), sources)
  }

  ghost function ProjectSources(sources: seq<Source>): Report
  {
    var m := MergeEvalRunSources(sources);
    Project(m.events, m.usage, m.missing, m.excluded)
  }

  /** The events of one node and one time. */
  function Tied(events: seq<Event>, node: string, k: int): seq<Event>
  {
    Ties(OrderOf, k, Filter(OnNode(node), events))
  }

  lemma TiedAppend(a: seq<Event>, b: seq<Event>, node: string, k: int)
    ensures Tied(a + b, node, k) == Tied(a, node, k) + Tied(b, node, k)
  {
    FilterAppend(OnNode(node), a, b);
    FilterAppend(AtKey(OrderOf, k), Filter(OnNode(node), a), Filter(OnNode(node), b));
  }

  /** Of each node and time, the tied events read the same in either order; in particular when one list has none. */
  ghost predicate TiesCommute(a: seq<Event>, b: seq<Event>)
  {
    forall node, k :: Tied(a, node, k) + Tied(b, node, k) == Tied(b, node, k) + Tied(a, node, k)
  }

  ghost predicate GroupedAlike(events: seq<Event>, other: seq<Event>) { GroupEvents(events) == GroupEvents(other) }

  lemma NoEvents(events: seq<Event>, node: string)
    requires node !in Nodes(events)
    ensures NodeEvents(events, node) == []
  {
    forall i | 0 <= i < |events| ensures !OnNode(node)(events[i]) {
      assert events[i] in events;
    }
    FilterNone(OnNode(node), events);
  }

  lemma AlikeOnNode(events: seq<Event>, other: seq<Event>, node: string)
    requires GroupedAlike(events, other)
    ensures NodeEvents(events, node) == NodeEvents(other, node)
  {
    assert node in GroupEvents(events) <==> node in GroupEvents(other);
    if node in GroupEvents(events) {
      assert NodeEvents(events, node) == GroupEvents(events)[node];
    } else {
      NoEvents(events, node);
      NoEvents(other, node);
    }
  }

  /** Lists that group alike tie alike. */
  lemma AlikeTies(events: seq<Event>, other: seq<Event>, node: string, k: int)
    requires GroupedAlike(events, other)
    ensures Tied(events, node, k) == Tied(other, node, k)
  {
    AlikeOnNode(events, other, node);
    SortByTies(OrderOf, Filter(OnNode(node), events), Filter(OnNode(node), other));
  }

  /** The tied events of a source join those already merged. */
  function TiedStep(node: string, k: int): (seq<Event>, Source) -> seq<Event>
  {
    (tied: seq<Event>, s: Source) => tied + Tied(s.events, node, k)
  }

  lemma {:induction false} MergedTies(sources: seq<Source>, node: string, k: int)
    ensures Tied(MergeEvalRunSources(sources).events, node, k) == Fold(TiedStep(node, k), [], sources)
  {
    if sources != [] {
      var n := |sources| - 1;
      MergedTies(sources[..n], node, k);
      TiedAppend(MergeEvalRunSources(sources[..n]).events, sources[n].events, node, k);
    }
  }

  /** The tied events of any two sources read the same in either order. */
  ghost predicate SourcesCommute(sources: seq<Source>)
  {
    forall a, b | a in sources && b in sources :: TiesCommute(a.events, b.events)
  }

  lemma TiedStepsCommute(sources: seq<Source>, node: string, k: int)
    requires SourcesCommute(sources)
    ensures Commutes(TiedStep(node, k), sources)
  {
    var step := TiedStep(node, k);
    forall t, a, b | a in sources && b in sources ensures step(step(t, a), b) == step(step(t, b), a) {
      var x, y := Tied(a.events, node, k), Tied(b.events, node, k);
      assert TiesCommute(a.events, b.events);
      assert t + x + y == t + (x + y) && t + y + x == t + (y + x);
    }
  }

  /** What merging keeps whatever the order: the records, and the names. */
  datatype Merged = Merged(events: multiset<Event>, usage: multiset<Usage>, missing: set<string>, excluded: set<string>)

  function Bag(s: Source): Merged { Merged(multiset(s.events), multiset(s.usage), s.missing, s.excluded) }

  function AddBag(m: Merged, s: Source): Merged
  {
    Merged(m.events + multiset(s.events), m.usage + multiset(s.usage), m.missing + s.missing, m.excluded + s.excluded)
  }

  lemma {:induction false} MergedBag(sources: seq<Source>)
    ensures Bag(MergeEvalRunSources(sources)) == Fold(AddBag, Merged(multiset{}, multiset{}, {}, {}), sources)
  {
    if sources != [] {
      MergedBag(sources[..|sources| - 1]);
    }
  }

  lemma BagsCommute(m: Merged, a: Source, b: Source)
    ensures AddBag(AddBag(m, a), b) == AddBag(AddBag(m, b), a)
  {
    var ab, ba := AddBag(AddBag(m, a), b), AddBag(AddBag(m, b), a);
    assert ab.events == ba.events;
    assert ab.usage == ba.usage;
    assert ab.missing == ba.missing;
    assert ab.excluded == ba.excluded;
  }

  lemma MergedBagIgnoresOrder(sources: seq<Source>, other: seq<Source>)
    requires multiset(sources) == multiset(other)
    ensures Bag(MergeEvalRunSources(sources)) == Bag(MergeEvalRunSources(other))
  {
    MergedBag(sources);
    MergedBag(other);
    forall m, a, b ensures AddBag(AddBag(m, a), b) == AddBag(AddBag(m, b), a) {
      BagsCommute(m, a, b);
    }
    FoldPermuted(AddBag, Merged(multiset{}, multiset{}, {}, {}), sources, other);
  }

  lemma MergedRecords(sources: seq<Source>, other: seq<Source>)
    requires multiset(sources) == multiset(other) && SourcesCommute(sources)
    ensures SameRecord(MergeEvalRunSources(sources).events, MergeEvalRunSources(other).events)
  {
    var m, w := MergeEvalRunSources(sources), MergeEvalRunSources(other);
    MergedBagIgnoresOrder(sources, other);
    forall node, k ensures Ties(OrderOf, k, Filter(OnNode(node), m.events)) == Ties(OrderOf, k, Filter(OnNode(node), w.events)) {
      MergedTies(sources, node, k);
      MergedTies(other, node, k);
      TiedStepsCommute(sources, node, k);
      FoldPermuted(TiedStep(node, k), [], sources, other);
    }
  }

  /**
   * Run sources may be merged in any order when the tied events of any two of them commute; in
   * particular when no two sources record the same node at the same time.
   */
  lemma MergeOrderIrrelevant(sources: seq<Source>, other: seq<Source>)
    requires multiset(sources) == multiset(other) && SourcesCommute(sources)
    ensures ProjectSources(sources) == ProjectSources(other)
  {
    var m, w := MergeEvalRunSources(sources), MergeEvalRunSources(other);
    MergedBagIgnoresOrder(sources, other);
    MergedRecords(sources, other);
    ProjectionIgnoresOrder(m.events, w.events, m.usage, w.usage, m.missing, m.excluded);
  }

  /** Whatever order the sources are merged in, the events group alike. */
  ghost predicate GroupedInEveryOrder(sources: seq<Source>)
  {
    forall other | multiset(other) == multiset(sources) ::
      GroupedAlike(MergeEvalRunSources(sources).events, MergeEvalRunSources(other).events)
  }

  lemma EventsAtBack(rest: seq<Source>, a: Source, b: Source)
    ensures MergeEvalRunSources(rest + [a, b]).events == MergeEvalRunSources(rest).events + (a.events + b.events)
  {
    var start, merged := Source([], [], {}, {}), MergeEvalRunSources(rest).events;
    FoldStep(AddSource, start, rest, a);
    FoldStep(AddSource, start, rest + [a], b);
    assert rest + [a, b] == rest + [a] + [b];
    assert merged + a.events + b.events == merged + (a.events + b.events);
  }

  lemma TiedAtBack(rest: seq<Source>, a: Source, b: Source, node: string, k: int)
    ensures Tied(MergeEvalRunSources(rest + [a, b]).events, node, k)
      == Tied(MergeEvalRunSources(rest).events, node, k) + (Tied(a.events, node, k) + Tied(b.events, node, k))
  {
    EventsAtBack(rest, a, b);
    TiedAppend(MergeEvalRunSources(rest).events, a.events + b.events, node, k);
    TiedAppend(a.events, b.events, node, k);
  }

  lemma TiesOfEveryOrder(sources: seq<Source>, a: Source, b: Source)
    requires GroupedInEveryOrder(sources) && a in sources && b in sources
    ensures TiesCommute(a.events, b.events)
  {
    if a != b {
      var rest := MoveTwoToBack(sources, a, b);
      var m, ab, ba := MergeEvalRunSources(sources).events, MergeEvalRunSources(rest + [a, b]).events, MergeEvalRunSources(rest + [b, a]).events;
      assert GroupedAlike(m, ab) && GroupedAlike(m, ba);
      forall node, k ensures Tied(a.events, node, k) + Tied(b.events, node, k) == Tied(b.events, node, k) + Tied(a.events, node, k) {
        AlikeTies(m, ab, node, k);
        AlikeTies(m, ba, node, k);
        TiedAtBack(rest, a, b, node, k);
        TiedAtBack(rest, b, a, node, k);
        Cancel(Tied(MergeEvalRunSources(rest).events, node, k), Tied(a.events, node, k) + Tied(b.events, node, k), Tied(b.events, node, k) + Tied(a.events, node, k));
      }
    }
  }

  /**
   * Merging sources in every order groups their events alike if and only if, for every two sources
   * and every node and time, their tied events read the same in either order.
   */
  lemma MergeOrderExact(sources: seq<Source>)
    ensures GroupedInEveryOrder(sources) <==> SourcesCommute(sources)
  {
    if GroupedInEveryOrder(sources) {
      forall a, b | a in sources && b in sources ensures TiesCommute(a.events, b.events) {
        TiesOfEveryOrder(sources, a, b);
      }
    }
    if SourcesCommute(sources) {
      forall other | multiset(other) == multiset(sources)
        ensures GroupedAlike(MergeEvalRunSources(sources).events, MergeEvalRunSources(other).events)
      {
        MergedRecords(sources, other);
        GroupsAgree(MergeEvalRunSources(sources).events, MergeEvalRunSources(other).events);
      }
    }
  }

  /** An event that moves a node to a status at a time. */
  function Moved(node: string, at: int, status: string): Event
  {
    Event(Some(node), Some(at), Some(status), None, None, None, None, None, None)
  }

  function OneEvent(e: Event): Source { Source([e], [], {}, {}) }

  lemma MergedPair(first: Event, second: Event)
    ensures MergeEvalRunSources([OneEvent(first), OneEvent(second)]) == Source([first, second], [], {}, {})
  {
    var start, sources := Source([], [], {}, {}), [OneEvent(first)];
    assert sources == [] + sources;
    FoldStep(AddSource, start, [], OneEvent(first));
    FoldStep(AddSource, start, sources, OneEvent(second));
    assert [OneEvent(first), OneEvent(second)] == sources + [OneEvent(second)];
    assert [first, second] == [first] + [second];
  }

  /** Two settled events of one node at one time: the node ends as the second says. */
  lemma PairTerminals(first: Event, second: Event, node: string)
    requires first.node == second.node == Some(node) && OrderOf(first) == OrderOf(second) && IsSettled(second)
    ensures Terminals(GroupEvents([first, second])) == map[node := second]
  {
    var events := [first, second];
    FilterAll(OnNode(node), events);
    assert events[1..] == [second];
    assert Sort(KeyLe(OrderOf), [second]) == [second];
    assert NodeEvents(events, node) == events;
    assert events[0] in events && events[1] in events;
    assert Nodes(events) == {node};
  }

  lemma BlockedCount(node: string, e: Event)
    ensures |Blocked(map[node := e])| == if IsBlocked(e) then 1 else 0
  {
    assert Blocked(map[node := e]) == if IsBlocked(e) then {node} else {};
  }

  lemma BlockedNumerator(events: seq<Event>, usage: seq<Usage>, missing: set<string>, excluded: set<string>)
    ensures Project(events, usage, missing, excluded).blockedContextRate.numerator == |Blocked(Terminals(GroupEvents(Without(events, excluded))))|
  {
  }

  lemma BlockedRateOfPair(first: Event, second: Event, node: string)
    requires first.node == second.node == Some(node) && OrderOf(first) == OrderOf(second) && IsSettled(second)
    ensures ProjectSources([OneEvent(first), OneEvent(second)]).blockedContextRate.numerator == if IsBlocked(second) then 1 else 0
  {
    MergedPair(first, second);
    var events := [first, second];
    assert Without(events, {}) == events by {
      FilterAll(IsKept({}), events);
    }
    assert Terminals(GroupEvents(events)) == map[node := second] by {
      PairTerminals(first, second, node);
    }
    BlockedNumerator(events, [], {}, {});
    BlockedCount(node, second);
  }

  /** Merging is not order-free in general: of a "done" and a "blocked" at one time, the later source wins. */
  lemma MergeOrderMatters(node: string, at: int)
    ensures var a, b := OneEvent(Moved(node, at, "done")), OneEvent(Moved(node, at, "blocked"));
      ProjectSources([a, b]).blockedContextRate.numerator == 1 && ProjectSources([b, a]).blockedContextRate.numerator == 0
  {
    var done, blocked := Moved(node, at, "done"), Moved(node, at, "blocked");
    BlockedRateOfPair(done, blocked, node);
    BlockedRateOfPair(blocked, done, node);
  }
}

/**
 * The judge matrix of evals/judge-canary-matrix.mjs: result files are pooled per judge, and each
 * worker family gets the best judge its vendor rule allows.
 */
module JudgeMatrix {
  import opened Collections
  import opened TextOrder
  import opened JudgePooling

  datatype ResultFile = ResultFile(path: string, id: Text, vendor: string, cases: seq<Outcome>)

  datatype Judge = Judge(
    id: Text,
    vendor: string,
    repetitions: int,
    counts: Pooled,
    byAuthorFamily: map<string, Pooled>,
    sameFamily: Option<Pooled>)

  /** A judge row of the matrix: the judge and the files it was pooled from. */
  datatype JudgeRow = JudgeRow(judge: Judge, resultFiles: seq<string>)

  const AUTHOR_FAMILIES := {"anthropic", "openai", "deepseek", "zhipu", "google"}
  const WORKER_FAMILIES := ["anthropic", "deepseek", "google", "openai", "zhipu"]
  const RECALL_COST_WINDOW: real := 0.05

  // ----- choosing the best allowed judge

  /** What subtracting two costs gives, a missing cost counting as infinite. */
  datatype Difference = Number(value: real) | Infinite | MinusInfinite | NotANumber

  function Subtract(left: Option<real>, right: Option<real>): Difference
  {
    if left.Some? && right.Some? then Number(left.value - right.value)
    else if left.Some? then MinusInfinite
    else if right.Some? then Infinite
    else NotANumber
  }

  /** The locale's comparison of ids, a parameter: it may find different ids equal. */
  function CompareIds(le: Collation, left: Text, right: Text): Difference
  {
    Number(if le(left, right) && le(right, left) then 0.0 else if le(left, right) then -1.0 else 1.0)
  }

  /** The comparator; a missing cost against a missing cost is not a number, and decides. */
  function CompareWithinWindow(le: Collation, left: Judge, right: Judge): Difference
  {
    var cost := Subtract(left.counts.costPerCaseUsd, right.counts.costPerCaseUsd);
    if cost != Number(0.0) then cost else
    var falseAlarm := Subtract(left.counts.falseAlarmRate, right.counts.falseAlarmRate);
    if falseAlarm != Number(0.0) then falseAlarm else
    CompareIds(le, left.id, right.id)
  }

  /** How a sort reads the comparator: only a positive answer moves `left` behind, and NaN counts as zero. */
  predicate MayPrecede(le: Collation, left: Judge, right: Judge)
  {
    var d := CompareWithinWindow(le, left, right);
    !(d.Infinite? || (d.Number? && d.value > 0.0))
  }

  function NotAfter(le: Collation): (Judge, Judge) -> bool { (x: Judge, y: Judge) => MayPrecede(le, x, y) }

  /**
   * Of two judges with costs and false-alarm rates the comparator is negative exactly when the left
   * one beats the right one, positive exactly when it is beaten, and zero exactly when they tie.
   */
  lemma ComparatorExact(le: Collation, left: Judge, right: Judge)
    requires TotalPreorder(le)
    requires left.counts.costPerCaseUsd.Some? && left.counts.falseAlarmRate.Some?
    requires right.counts.costPerCaseUsd.Some? && right.counts.falseAlarmRate.Some?
    ensures var d := CompareWithinWindow(le, left, right);
      && d.Number?
      && (d.value < 0.0 <==> Beats(le, left, right)) && (d.value > 0.0 <==> Beats(le, right, left))
      && (d.value == 0.0 <==> Tie(le, left, right))
  {
  }

  predicate IsMeasured(j: Judge) { j.counts.recall.Some? }

  function RecallOf(j: Judge): real { if IsMeasured(j) then j.counts.recall.value else 0.0 }

  function Maximum(xs: seq<real>): (m: real)
    requires xs != []
    ensures m in xs && forall i | 0 <= i < |xs| :: xs[i] <= m
  {
    var n := |xs| - 1;
    if n == 0 then xs[0] else
    var before := Maximum(xs[..n]);
    if xs[n] >= before then xs[n] else before
  }

  function HighestRecall(measured: seq<Judge>): real
    requires measured != []
  {
    Maximum(Map(RecallOf, measured))
  }

  function InWindow(highest: real): Judge -> bool
  {
    (j: Judge) => IsMeasured(j) && RecallOf(j) >= highest - RECALL_COST_WINDOW
  }

  function TopOf(measured: seq<Judge>): seq<Judge>
    requires measured != []
  {
    Filter(InWindow(HighestRecall(measured)), measured)
  }

  function Window(allowed: seq<Judge>): seq<Judge>
  {
    var measured := Filter(IsMeasured, allowed);
    if measured == [] then allowed else TopOf(measured)
  }

  function BestAllowed(le: Collation, allowed: seq<Judge>): Option<Judge>
  {
    var window := Sort(NotAfter(le), Window(allowed));
    if window == [] then None else Some(window[0])
  }

  /** The order the documentation promises: cost, then false alarms, then id, missing numbers last. */
  predicate Before(a: Option<real>, b: Option<real>) { a.Some? && (b.None? || a.value < b.value) }

  predicate Beats(le: Collation, x: Judge, y: Judge)
  {
    var c, d := x.counts.costPerCaseUsd, y.counts.costPerCaseUsd;
    var f, g := x.counts.falseAlarmRate, y.counts.falseAlarmRate;
    Before(c, d) || (c == d && (Before(f, g) || (f == g && le(x.id, y.id) && !le(y.id, x.id))))
  }

  predicate SameId(le: Collation, a: Text, b: Text) { le(a, b) && le(b, a) }

  /** Two judges that neither cost nor false alarms nor the locale's comparison of ids tells apart. */
  predicate Tie(le: Collation, x: Judge, y: Judge)
  {
    x.counts.costPerCaseUsd == y.counts.costPerCaseUsd && x.counts.falseAlarmRate == y.counts.falseAlarmRate && SameId(le, x.id, y.id)
  }

  ghost predicate StandsBefore(js: seq<Judge>, x: Judge, y: Judge)
  {
    exists i, k | 0 <= i < k < |js| :: js[i] == x && js[k] == y
  }

  lemma NotAfterIsPreorder(le: Collation)
    requires TotalPreorder(le)
    ensures TotalPreorder(NotAfter(le))
  {
    forall x, y ensures NotAfter(le)(x, y) || NotAfter(le)(y, x) {}
    forall x, y, z | NotAfter(le)(x, y) && NotAfter(le)(y, z) ensures NotAfter(le)(x, z) {
      PrecedesTransitively(le, x, y, z);
    }
  }

  lemma PrecedesTransitively(le: Collation, x: Judge, y: Judge, z: Judge)
    requires TotalPreorder(le) && MayPrecede(le, x, y) && MayPrecede(le, y, z)
    ensures MayPrecede(le, x, z)
  {
  }

  function IdBefore(le: Collation): (Judge, Judge) -> bool { (x: Judge, y: Judge) => le(x.id, y.id) && x.id != y.id }

  /** A judge without a cost had no invocation, and so has no false-alarm rate either. */
  predicate CostKnown(j: Judge) { j.counts.costPerCaseUsd.None? ==> j.counts.falseAlarmRate.None? }

  /** Judges of different ids in id order, with what pooling guarantees of each. */
  ghost predicate Ordered(le: Collation, js: seq<Judge>)
  {
    Pairwise(IdBefore(le), js) && forall j | j in js :: CostKnown(j)
  }

  lemma WindowOrdered(le: Collation, allowed: seq<Judge>)
    requires Ordered(le, allowed)
    ensures Ordered(le, Window(allowed))
  {
    var measured := Filter(IsMeasured, allowed);
    FilterPairwise(IdBefore(le), IsMeasured, allowed);
    if measured != [] {
      FilterPairwise(IdBefore(le), InWindow(HighestRecall(measured)), measured);
    }
  }

  /** The best judge stands somewhere in the window, no later judge beats it and no earlier one ties. */
  lemma FirstOfWindow(le: Collation, window: seq<Judge>) returns (i: nat)
    requires TotalPreorder(le) && window != []
    ensures i < |window| && Sort(NotAfter(le), window)[0] == window[i]
    ensures forall k | 0 <= k < |window| :: MayPrecede(le, window[i], window[k])
    ensures forall k | 0 <= k < i :: !MayPrecede(le, window[k], window[i])
  {
    NotAfterIsPreorder(le);
    i := SortHead(NotAfter(le), window);
    forall k | 0 <= k < |window| ensures MayPrecede(le, window[i], window[k]) {
      assert NotAfter(le)(window[i], window[k]);
    }
    forall k | 0 <= k < i ensures !MayPrecede(le, window[k], window[i]) {
      assert !NotAfter(le)(window[k], window[i]);
    }
  }

  lemma PrecedingMeansBeats(le: Collation, x: Judge, y: Judge)
    requires TotalPreorder(le) && MayPrecede(le, x, y) && CostKnown(x) && CostKnown(y)
    requires MayPrecede(le, y, x) ==> le(x.id, y.id)
    ensures Beats(le, x, y) || (Tie(le, x, y) && MayPrecede(le, y, x))
  {
  }

  /** What the window holds: everything when nothing is measured, else the measured judges near the top. */
  lemma WindowMembers(allowed: seq<Judge>, j: Judge)
    requires allowed != []
    ensures (forall k | k in allowed :: k.counts.recall.None?) ==> Window(allowed) == allowed
    ensures j in allowed && j.counts.recall.Some? ==>
      (j in Window(allowed) <==>
        forall k | k in allowed && k.counts.recall.Some? :: j.counts.recall.value >= k.counts.recall.value - 0.05)
    ensures j in Window(allowed) ==> j in allowed && ((exists k :: k in allowed && k.counts.recall.Some?) ==> j.counts.recall.Some?)
    ensures Window(allowed) != []
  {
    var measured := Filter(IsMeasured, allowed);
    if measured != [] {
      TopMembers(measured, j);
    } else {
      assert forall k | k in allowed :: !IsMeasured(k);
    }
  }

  lemma TopMembers(measured: seq<Judge>, j: Judge)
    requires measured != [] && forall k | k in measured :: k.counts.recall.Some?
    ensures TopOf(measured) != []
    ensures j in TopOf(measured) <==> j in measured && forall k | k in measured :: j.counts.recall.value >= k.counts.recall.value - 0.05
  {
    var top := HighestIsReached(measured);
    assert InWindow(HighestRecall(measured))(top);
    forall k | k in measured ensures k.counts.recall.value <= HighestRecall(measured) {
      HighestIsHighest(measured, k);
    }
  }

  lemma FirstBeats(le: Collation, window: seq<Judge>, i: nat, k: nat)
    requires TotalPreorder(le) && Ordered(le, window) && i < |window| && k < |window| && i != k
    requires MayPrecede(le, window[i], window[k]) && (k < i ==> !MayPrecede(le, window[k], window[i]))
    ensures Beats(le, window[i], window[k]) || (Tie(le, window[i], window[k]) && i < k)
  {
    assert if k < i then IdBefore(le)(window[k], window[i]) else IdBefore(le)(window[i], window[k]);
    assert CostKnown(window[i]) && CostKnown(window[k]);
    PrecedingMeansBeats(le, window[i], window[k]);
  }

  /** The first judge of the sorted window beats every other judge in it, or ties with it and stands before it. */
  lemma HeadBeatsWindow(le: Collation, window: seq<Judge>, j: Judge)
    requires TotalPreorder(le) && Ordered(le, window) && window != []
    ensures Sort(NotAfter(le), window)[0] in window
    ensures var best := Sort(NotAfter(le), window)[0];
      j in window && j != best ==> Beats(le, best, j) || (Tie(le, best, j) && StandsBefore(window, best, j))
  {
    var i := FirstOfWindow(le, window);
    if j in window && j != window[i] {
      var k :| 0 <= k < |window| && window[k] == j;
      FirstBeats(le, window, i, k);
    }
  }

  /**
   * The best judge of a list is in its window and beats every other judge there, or ties with it
   * and stands before it.
   */
  lemma BestBeatsWindow(le: Collation, allowed: seq<Judge>, j: Judge)
    requires TotalPreorder(le) && Ordered(le, allowed) && allowed != []
    ensures BestAllowed(le, allowed).Some?
    ensures BestAllowed(le, allowed).value in Window(allowed) && BestAllowed(le, allowed).value in allowed
    ensures var best := BestAllowed(le, allowed).value;
      j in Window(allowed) && j != best ==> Beats(le, best, j) || (Tie(le, best, j) && StandsBefore(Window(allowed), best, j))
  {
    WindowMembers(allowed, j);
    WindowOrdered(le, allowed);
    HeadBeatsWindow(le, Window(allowed), j);
    WindowMembers(allowed, Sort(NotAfter(le), Window(allowed))[0]);
  }

  /** Nothing beats itself, and of two judges only one beats the other: the minimum is unique. */
  lemma BeatsIsStrict(le: Collation, x: Judge, y: Judge)
    requires Beats(le, x, y)
    ensures !Beats(le, y, x) && !Tie(le, x, y)
  {
  }

  /** A judge without a recall, or with one more than 0.05 below that of `k`. */
  predicate FarBelow(j: Judge, k: Judge)
  {
    k.counts.recall.Some? && (j.counts.recall.None? || j.counts.recall.value < k.counts.recall.value - 0.05)
  }

  /** A judge below the window changes nothing, wherever it stands in the list. */
  lemma BelowWindowIsIgnored(le: Collation, above: seq<Judge>, j: Judge, below: seq<Judge>, k: Judge)
    requires k in above + below && FarBelow(j, k)
    ensures BestAllowed(le, above + [j] + below) == BestAllowed(le, above + below)
  {
    WindowIgnores(above, j, below, k);
  }

  lemma MeasuredInserted(above: seq<Judge>, j: Judge, below: seq<Judge>)
    ensures var ma, mb := Filter(IsMeasured, above), Filter(IsMeasured, below);
      && Filter(IsMeasured, above + below) == ma + mb
      && Filter(IsMeasured, above + [j] + below) == if IsMeasured(j) then ma + [j] + mb else ma + mb
  {
    FilterInserted(IsMeasured, above, j, below);
    FilterAppend(IsMeasured, above, below);
    assert Filter(IsMeasured, above) + [] == Filter(IsMeasured, above);
  }

  lemma WindowIgnores(above: seq<Judge>, j: Judge, below: seq<Judge>, k: Judge)
    requires k in above + below && FarBelow(j, k)
    ensures Window(above + [j] + below) == Window(above + below)
  {
    var ma, mb := Filter(IsMeasured, above), Filter(IsMeasured, below);
    assert k in ma + mb;
    MeasuredInserted(above, j, below);
    if IsMeasured(j) {
      TopIgnores(ma, j, mb, k);
    }
  }

  lemma TopIgnores(above: seq<Judge>, j: Judge, below: seq<Judge>, k: Judge)
    requires k in above + below && RecallOf(j) < RecallOf(k) - 0.05
    ensures TopOf(above + [j] + below) == TopOf(above + below)
  {
    SameHighest(above, j, below, k);
    HighestIsHighest(above + below, k);
    var inWindow := InWindow(HighestRecall(above + below));
    FilterInserted(inWindow, above, j, below);
    FilterAppend(inWindow, above, below);
    assert Filter(inWindow, above) + [] == Filter(inWindow, above);
  }

  lemma HighestIsHighest(measured: seq<Judge>, k: Judge)
    requires k in measured
    ensures RecallOf(k) <= HighestRecall(measured)
  {
    var i :| 0 <= i < |measured| && measured[i] == k;
    assert Map(RecallOf, measured)[i] == RecallOf(k);
  }

  lemma HighestIsReached(measured: seq<Judge>) returns (k: Judge)
    requires measured != []
    ensures k in measured && RecallOf(k) == HighestRecall(measured)
  {
    var recalls := Map(RecallOf, measured);
    var t :| 0 <= t < |recalls| && recalls[t] == HighestRecall(measured);
    k := measured[t];
  }

  lemma SameHighest(above: seq<Judge>, j: Judge, below: seq<Judge>, k: Judge)
    requires k in above + below && RecallOf(j) < RecallOf(k)
    ensures HighestRecall(above + [j] + below) == HighestRecall(above + below)
  {
    var all, rest := above + [j] + below, above + below;
    assert forall x :: x in all <==> x == j || x in rest;
    var x := HighestIsReached(all);
    var y := HighestIsReached(rest);
    HighestIsHighest(all, y);
    HighestIsHighest(all, k);
    HighestIsHighest(rest, x);
  }

  // ----- pooling files per judge

  function Own(id: Text): ResultFile -> bool { (f: ResultFile) => f.id == id }
  function OwnFiles(files: seq<ResultFile>, id: Text): seq<ResultFile> { Filter(Own(id), files) }
  function PathOf(f: ResultFile): string { f.path }

  function CasesOf(files: seq<ResultFile>): seq<Outcome>
  {
    if files == [] then [] else CasesOf(files[..|files| - 1]) + files[|files| - 1].cases
  }

  /** The rounds one file represents: its distinct repetition numbers, or one when it has none. */
  function RepetitionCount(cases: seq<Outcome>): nat
  {
    var rounds := set o | o in cases && o.repetition.Some? :: o.repetition.value;
    if cases == [] then 0 else if |rounds| > 0 then |rounds| else 1
  }

  function AddRepetitions(n: int, f: ResultFile): int { n + RepetitionCount(f.cases) }

  function ByAuthor(family: string): Outcome -> bool { (o: Outcome) => o.authorFamily == family }

  type Pooling = seq<Outcome> -> Pooled

  function PoolByFamily(pool: Pooling, families: set<string>, cases: seq<Outcome>): map<string, Pooled>
  {
    map family | family in families :: pool(Filter(ByAuthor(family), cases))
  }

  function JudgeFrom(pool: Pooling, id: Text, vendor: string, repetitions: int, cases: seq<Outcome>): Judge
  {
    var byFamily := PoolByFamily(pool, AUTHOR_FAMILIES, cases);
    Judge(id, vendor, repetitions, pool(cases), byFamily, if vendor in byFamily then Some(byFamily[vendor]) else None)
  }

  function VendorOf(own: seq<ResultFile>): string { if own == [] then "" else own[0].vendor }

  /** The judge ids, in the order they first appear. */
  function Ids(files: seq<ResultFile>): seq<Text>
  {
    if files == [] then [] else
    var before, last := Ids(files[..|files| - 1]), files[|files| - 1];
    if last.id in before then before else before + [last.id]
  }

  lemma {:induction false} IdsOfFiles(files: seq<ResultFile>, id: Text)
    ensures Distinct(Ids(files))
    ensures id in Ids(files) <==> exists f :: f in files && f.id == id
  {
    if files != [] {
      var n := |files| - 1;
      IdsOfFiles(files[..n], id);
      IdsOfFiles(files[..n], files[n].id);
      assert files == files[..n] + [files[n]];
      assert files[n] in files;
      assert forall f :: f in files <==> f in files[..n] || f == files[n];
    }
  }

  /** No two files give one judge different vendors. */
  ghost predicate Consistent(files: seq<ResultFile>)
  {
    forall f, g | f in files && g in files && f.id == g.id :: f.vendor == g.vendor
  }

  datatype Group = Group(vendor: string, resultFiles: seq<string>, outcomes: seq<Outcome>, repetitions: int)

  /** What pooling holds of the files of one judge. */
  function GroupFrom(own: seq<ResultFile>): Group
  {
    Group(VendorOf(own), Map(PathOf, own), CasesOf(own), Fold(AddRepetitions, 0, own))
  }

  function GroupOf(files: seq<ResultFile>, id: Text): Group { GroupFrom(OwnFiles(files, id)) }

  function WithGroup(files: seq<ResultFile>): Text -> (Text, Group) { (id: Text) => (id, GroupOf(files, id)) }

  /** The groups of a list of files, in id order. */
  function Groups(le: Collation, files: seq<ResultFile>): seq<(Text, Group)> { Map(WithGroup(files), Sort(le, Ids(files))) }

  function JudgeOf(g: (Text, Group)): Judge { JudgeFrom(PoolOutcomes, g.0, g.1.vendor, g.1.repetitions, g.1.outcomes) }

  function RowOf(g: (Text, Group)): JudgeRow
  {
    JudgeRow(JudgeOf(g), g.1.resultFiles)
  }

  /** The judge rows of the matrix. */
  function Rows(le: Collation, files: seq<ResultFile>): seq<JudgeRow> { Map(RowOf, Groups(le, files)) }

  lemma OwnNext(files: seq<ResultFile>, f: ResultFile, id: Text)
    ensures OwnFiles(files + [f], id) == if f.id == id then OwnFiles(files, id) + [f] else OwnFiles(files, id)
  {
    FilterAppend(Own(id), files, [f]);
    FilterOne(Own(id), f);
  }

  /** A group with one more file. */
  function Joined(g: Group, f: ResultFile): Group
  {
    Group(g.vendor, g.resultFiles + [f.path], g.outcomes + f.cases, g.repetitions + RepetitionCount(f.cases))
  }

  function NewGroup(f: ResultFile): Group { Group(f.vendor, [], [], 0) }

  lemma GroupFromNext(own: seq<ResultFile>, f: ResultFile)
    ensures GroupFrom(own + [f]) == Joined(if own == [] then NewGroup(f) else GroupFrom(own), f)
  {
    var all := own + [f];
    assert all[..|all| - 1] == own && all[|all| - 1] == f;
    FoldStep(AddRepetitions, 0, own, f);
    assert Map(PathOf, all) == Map(PathOf, own) + [f.path];
    assert CasesOf(all) == CasesOf(own) + f.cases;
    if own == [] {
      assert VendorOf(all) == f.vendor && Map(PathOf, own) == [] && CasesOf(own) == [];
    } else {
      assert VendorOf(all) == VendorOf(own);
    }
  }

  lemma GroupNext(files: seq<ResultFile>, f: ResultFile, id: Text)
    ensures GroupOf(files + [f], id)
      == if f.id != id then GroupOf(files, id)
         else Joined(if OwnFiles(files, id) == [] then NewGroup(f) else GroupOf(files, id), f)
  {
    OwnNext(files, f, id);
    if f.id == id {
      GroupFromNext(OwnFiles(files, id), f);
    }
  }

  lemma IdsNext(files: seq<ResultFile>, f: ResultFile)
    ensures Ids(files + [f]) == if f.id in Ids(files) then Ids(files) else Ids(files) + [f.id]
  {
    assert (files + [f])[..|files|] == files;
  }

  /** The groups hold exactly the files read so far. */
  ghost predicate Grouped(files: seq<ResultFile>, order: seq<Text>, groups: map<Text, Group>)
  {
    && order == Ids(files)
    && (forall id :: id in groups <==> id in order)
    && (forall id | id in groups :: groups[id] == GroupOf(files, id))
    && Consistent(files)
  }

  lemma OwnOfNew(files: seq<ResultFile>, id: Text)
    ensures id in Ids(files) <==> OwnFiles(files, id) != []
  {
    IdsOfFiles(files, id);
    if id in Ids(files) {
      var f :| f in files && f.id == id;
      assert f in OwnFiles(files, id);
    }
    if OwnFiles(files, id) != [] {
      var f := OwnFiles(files, id)[0];
      assert f in files && f.id == id;
    }
  }

  lemma ConsistentNext(files: seq<ResultFile>, f: ResultFile)
    requires Consistent(files)
    ensures Consistent(files + [f]) <==> (f.id in Ids(files) ==> VendorOf(OwnFiles(files, f.id)) == f.vendor)
  {
    var own := OwnFiles(files, f.id);
    OwnOfNew(files, f.id);
    if own != [] {
      assert own[0] in files && own[0].id == f.id;
      assert own[0] in files + [f] && f in files + [f];
      forall g | g in files && g.id == f.id ensures g.vendor == own[0].vendor {}
    } else {
      assert forall g | g in files :: g.id != f.id;
    }
  }

  lemma GrownGroup(files: seq<ResultFile>, f: ResultFile, held: Group, id: Text)
    requires id in Ids(files) ==> held == GroupOf(files, id)
    ensures GroupOf(files + [f], id)
      == if id != f.id then GroupOf(files, id) else Joined(if id in Ids(files) then held else NewGroup(f), f)
  {
    GroupNext(files, f, id);
    OwnOfNew(files, f.id);
  }

  lemma GroupedNext(files: seq<ResultFile>, f: ResultFile, order: seq<Text>, groups: map<Text, Group>)
    requires Grouped(files, order, groups) && Consistent(files + [f])
    ensures f.id !in groups ==> Grouped(files + [f], order + [f.id], groups[f.id := Joined(NewGroup(f), f)])
    ensures f.id in groups ==> Grouped(files + [f], order, groups[f.id := Joined(groups[f.id], f)])
  {
    IdsNext(files, f);
    var grown := groups[f.id := Joined(if f.id in groups then groups[f.id] else NewGroup(f), f)];
    forall id | id in grown ensures grown[id] == GroupOf(files + [f], id) {
      GrownGroup(files, f, if id in groups then groups[id] else NewGroup(f), id);
    }
  }

  /** Looking up the groups of a list of ids. */
  method LookUp(ids: seq<Text>, groups: map<Text, Group>) returns (found: seq<(Text, Group)>)
    requires forall i | 0 <= i < |ids| :: ids[i] in groups
    ensures |found| == |ids| && forall i | 0 <= i < |ids| :: found[i] == (ids[i], groups[ids[i]])
  {
    found := [];
    for i := 0 to |ids|
      invariant |found| == i && forall m | 0 <= m < i :: found[m] == (ids[m], groups[ids[m]])
    {
      found := found + [(ids[i], groups[ids[i]])];
    }
  }

  lemma FoundGroups(le: Collation, files: seq<ResultFile>, order: seq<Text>, groups: map<Text, Group>, found: seq<(Text, Group)>)
    requires Grouped(files, order, groups)
    requires var ids := Sort(le, order);
      |found| == |ids| && forall i | 0 <= i < |ids| :: ids[i] in groups && found[i] == (ids[i], groups[ids[i]])
    ensures found == Groups(le, files)
  {
  }

  lemma SortedIdsGrouped(le: Collation, files: seq<ResultFile>, order: seq<Text>, groups: map<Text, Group>)
    requires Grouped(files, order, groups)
    ensures forall i | 0 <= i < |Sort(le, order)| :: Sort(le, order)[i] in groups
  {
    SortMultiset(le, order);
    forall i | 0 <= i < |Sort(le, order)| ensures Sort(le, order)[i] in groups {
      assert Sort(le, order)[i] in order;
    }
  }

  lemma VendorClash(files: seq<ResultFile>, f: ResultFile, order: seq<Text>, groups: map<Text, Group>)
    requires Grouped(files, order, groups)
    ensures Consistent(files + [f]) <==> !(f.id in groups && groups[f.id].vendor != f.vendor)
  {
    ConsistentNext(files, f);
  }

  /** Grouping the files by judge; a judge with two vendors is refused. */
  method GroupFiles(files: seq<ResultFile>) returns (accepted: bool, order: seq<Text>, byJudge: map<Text, Group>)
    ensures accepted <==> Consistent(files)
    ensures accepted ==> Grouped(files, order, byJudge)
  {
    accepted, order, byJudge := true, [], map[];
    for k := 0 to |files|
      invariant accepted && Grouped(files[..k], order, byJudge)
    {
      var file := files[k];
      assert files[..k + 1] == files[..k] + [file];
      VendorClash(files[..k], file, order, byJudge);
      if file.id in byJudge && byJudge[file.id].vendor != file.vendor {
        StillInconsistent(files, k + 1);
        return false, order, byJudge;
      }
      GroupedNext(files[..k], file, order, byJudge);
      if file.id !in byJudge {
        byJudge := byJudge[file.id := Joined(NewGroup(file), file)];
        order := order + [file.id];
      } else {
        byJudge := byJudge[file.id := Joined(byJudge[file.id], file)];
      }
    }
    assert files[..|files|] == files;
  }

  /** Pooling the outcomes of every judge. */
  method PoolJudges(le: Collation, files: seq<ResultFile>) returns (rows: Option<seq<JudgeRow>>)
    ensures rows.Some? <==> Consistent(files)
    ensures rows.Some? ==> rows.value == Rows(le, files)
  {
    var accepted, order, byJudge := GroupFiles(files);
    if !accepted {
      return None;
    }
    SortedIdsGrouped(le, files, order, byJudge);
    var sorted := LookUp(Sort(le, order), byJudge);
    FoundGroups(le, files, order, byJudge, sorted);
    rows := Some(Map(RowOf, sorted));
  }

  lemma StillInconsistent(files: seq<ResultFile>, k: nat)
    requires k <= |files| && !Consistent(files[..k])
    ensures !Consistent(files)
  {
    var f, g :| f in files[..k] && g in files[..k] && f.id == g.id && f.vendor != g.vendor;
    assert f in files && g in files;
  }

  // ----- the pooled judges

  function CasesIn(f: ResultFile): seq<Outcome> { f.cases }

  /** A judge's outcomes are those of its files, pooled. */
  lemma {:induction false} CasesAreFlat(own: seq<ResultFile>)
    ensures CasesOf(own) == Flatten(Map(CasesIn, own))
  {
    if own != [] {
      var n := |own| - 1;
      CasesAreFlat(own[..n]);
      assert Map(CasesIn, own)[..n] == Map(CasesIn, own[..n]);
    }
  }

  /** The judges of the matrix, in id order. */
  function Judges(le: Collation, files: seq<ResultFile>): seq<Judge> { Map(JudgeOf, Groups(le, files)) }

  lemma {:induction false} SortedIds(le: Collation, files: seq<ResultFile>)
    requires TotalPreorder(le)
    ensures Sorted(le, Sort(le, Ids(files))) && Distinct(Sort(le, Ids(files)))
  {
    IdsOfFiles(files, []);
    SortSorted(le, Ids(files));
    SortMultiset(le, Ids(files));
    PermutedDistinct(Ids(files), Sort(le, Ids(files)));
  }

  lemma JudgeCostKnown(g: (Text, Group))
    ensures CostKnown(JudgeOf(g)) && JudgeOf(g).id == g.0
  {
    PoolPartitions(g.1.outcomes);
  }

  /** Pooled judges have different ids and come in id order, and one without a cost has no false-alarm rate. */
  lemma JudgesOrdered(le: Collation, files: seq<ResultFile>)
    requires TotalPreorder(le)
    ensures Ordered(le, Judges(le, files))
  {
    var js, groups := Judges(le, files), Groups(le, files);
    SortedIds(le, files);
    forall i | 0 <= i < |js| ensures CostKnown(js[i]) && js[i].id == groups[i].0 {
      JudgeCostKnown(groups[i]);
    }
    forall i, k | 0 <= i < k < |js| ensures IdBefore(le)(js[i], js[k]) {
      assert groups[i].0 == Sort(le, Ids(files))[i] && groups[k].0 == Sort(le, Ids(files))[k];
    }
  }

  predicate AuthoredBy(o: Outcome, family: string) { o.authorFamily == family }

  /** A judge pooled from its files: all their cases, and of these, for each of five families, the ones it authored. */
  ghost predicate IsPooledFrom(pool: Pooling, j: Judge, own: seq<ResultFile>)
  {
    && j.vendor == VendorOf(own) && j.counts == pool(CasesOf(own)) && j.repetitions == RoundsOf(own)
    && j.byAuthorFamily.Keys == {"anthropic", "deepseek", "google", "openai", "zhipu"}
    && (forall family | family in j.byAuthorFamily ::
          j.byAuthorFamily[family] == pool(Filter((o: Outcome) => AuthoredBy(o, family), CasesOf(own))))
    && (j.sameFamily.Some? <==> j.vendor in j.byAuthorFamily)
    && (j.sameFamily.Some? ==> j.sameFamily.value == j.byAuthorFamily[j.vendor])
  }

  lemma PooledFrom(pool: Pooling, id: Text, own: seq<ResultFile>)
    ensures IsPooledFrom(pool, JudgeFrom(pool, id, VendorOf(own), Fold(AddRepetitions, 0, own), CasesOf(own)), own)
  {
    RoundsAdd(own);
    forall family ensures Filter(ByAuthor(family), CasesOf(own)) == Filter((o: Outcome) => AuthoredBy(o, family), CasesOf(own)) {
      FilterAgrees(ByAuthor(family), (o: Outcome) => AuthoredBy(o, family), CasesOf(own));
    }
  }

  /** The ids of the judges are the ids that the files name. */
  lemma JudgesOfFiles(le: Collation, files: seq<ResultFile>, id: Text)
    ensures id in Map(IdOf, Judges(le, files)) <==> exists f :: f in files && f.id == id
  {
    IdsOfFiles(files, id);
    SortMultiset(le, Ids(files));
    IdsOfJudges(le, files);
  }

  /** What a judge is pooled from: the files of its id. */
  lemma JudgeExact(le: Collation, files: seq<ResultFile>, j: Judge)
    requires j in Judges(le, files)
    ensures IsPooledFrom(PoolOutcomes, j, OwnFiles(files, j.id))
  {
    var i :| 0 <= i < |Judges(le, files)| && Judges(le, files)[i] == j;
    var id := Sort(le, Ids(files))[i];
    assert j == JudgeOf((id, GroupOf(files, id)));
    PooledFrom(PoolOutcomes, id, OwnFiles(files, id));
  }

  /** The rounds of a list of files: for each, its distinct repetition numbers, or one when its cases name none. */
  function RoundsOf(own: seq<ResultFile>): nat
  {
    if own == [] then 0 else
    var cases := own[|own| - 1].cases;
    var numbers := set o | o in cases && o.repetition.Some? :: o.repetition.value;
    RoundsOf(own[..|own| - 1]) + if numbers != {} then |numbers| else if cases != [] then 1 else 0
  }

  lemma {:induction false} RoundsAdd(own: seq<ResultFile>)
    ensures Fold(AddRepetitions, 0, own) == RoundsOf(own)
  {
    if own != [] {
      RoundsAdd(own[..|own| - 1]);
      var cases := own[|own| - 1].cases;
      var numbers := set o | o in cases && o.repetition.Some? :: o.repetition.value;
      if o :| o in cases && o.repetition.Some? {
        assert o.repetition.value in numbers;
      }
    }
  }

  /** A row holds its judge and the files it was pooled from, in the order they were read. */
  lemma RowsExact(le: Collation, files: seq<ResultFile>, i: nat)
    requires i < |Judges(le, files)|
    ensures |Rows(le, files)| == |Judges(le, files)| && Rows(le, files)[i].judge == Judges(le, files)[i]
    ensures Rows(le, files)[i].resultFiles == Map((f: ResultFile) => f.path, OwnFiles(files, Judges(le, files)[i].id))
  {
    var id := Sort(le, Ids(files))[i];
    assert Judges(le, files)[i].id == id;
    assert Map((f: ResultFile) => f.path, OwnFiles(files, id)) == Map(PathOf, OwnFiles(files, id));
  }

  // ----- file order

  function AddCases(m: multiset<Outcome>, f: ResultFile): multiset<Outcome> { m + multiset(f.cases) }

  lemma {:induction false} CasesFold(files: seq<ResultFile>)
    ensures multiset(CasesOf(files)) == Fold(AddCases, multiset{}, files)
  {
    if files != [] {
      CasesFold(files[..|files| - 1]);
    }
  }

  lemma AdditionsCommute()
    ensures forall m, f, g :: AddCases(AddCases(m, f), g) == AddCases(AddCases(m, g), f)
    ensures forall n, f, g :: AddRepetitions(AddRepetitions(n, f), g) == AddRepetitions(AddRepetitions(n, g), f)
  {
    forall m, f, g ensures AddCases(AddCases(m, f), g) == AddCases(AddCases(m, g), f) {
      assert m + multiset(f.cases) + multiset(g.cases) == m + multiset(g.cases) + multiset(f.cases);
    }
  }

  lemma CasesPermuted(files: seq<ResultFile>, permuted: seq<ResultFile>)
    requires multiset(files) == multiset(permuted)
    ensures multiset(CasesOf(files)) == multiset(CasesOf(permuted))
  {
    CasesFold(files);
    CasesFold(permuted);
    AdditionsCommute();
    FoldPermuted(AddCases, multiset{}, files, permuted);
  }

  lemma RepetitionsPermuted(files: seq<ResultFile>, permuted: seq<ResultFile>)
    requires multiset(files) == multiset(permuted)
    ensures Fold(AddRepetitions, 0, files) == Fold(AddRepetitions, 0, permuted)
  {
    AdditionsCommute();
    FoldPermuted(AddRepetitions, 0, files, permuted);
  }

  ghost predicate OrderFree(pool: Pooling)
  {
    forall xs, ys | multiset(xs) == multiset(ys) :: pool(xs) == pool(ys)
  }

  lemma PoolIsOrderFree()
    ensures OrderFree(PoolOutcomes)
  {
    forall xs, ys | multiset(xs) == multiset(ys) ensures PoolOutcomes(xs) == PoolOutcomes(ys) {
      PoolIgnoresOrder(xs, ys);
    }
  }

  lemma FamiliesPermuted(pool: Pooling, families: set<string>, cases: seq<Outcome>, permuted: seq<Outcome>)
    requires OrderFree(pool) && multiset(cases) == multiset(permuted)
    ensures PoolByFamily(pool, families, cases) == PoolByFamily(pool, families, permuted)
  {
    forall family | family in families
      ensures pool(Filter(ByAuthor(family), cases)) == pool(Filter(ByAuthor(family), permuted))
    {
      FilterPermuted(ByAuthor(family), cases, permuted);
    }
  }

  lemma FromPermuted(pool: Pooling, id: Text, vendor: string, repetitions: int, cases: seq<Outcome>, permuted: seq<Outcome>)
    requires OrderFree(pool) && multiset(cases) == multiset(permuted)
    ensures JudgeFrom(pool, id, vendor, repetitions, cases) == JudgeFrom(pool, id, vendor, repetitions, permuted)
  {
    FamiliesPermuted(pool, AUTHOR_FAMILIES, cases, permuted);
  }

  lemma OwnPermuted(files: seq<ResultFile>, permuted: seq<ResultFile>, id: Text)
    requires multiset(files) == multiset(permuted) && Consistent(files)
    ensures multiset(OwnFiles(files, id)) == multiset(OwnFiles(permuted, id))
    ensures VendorOf(OwnFiles(files, id)) == VendorOf(OwnFiles(permuted, id))
  {
    FilterPermuted(Own(id), files, permuted);
    MembersOfPermuted(files, permuted);
    var a, b := OwnFiles(files, id), OwnFiles(permuted, id);
    if a != [] {
      assert a[0] in files && b[0] in permuted && b[0] in files;
    }
  }

  lemma JudgePermuted(files: seq<ResultFile>, permuted: seq<ResultFile>, id: Text)
    requires multiset(files) == multiset(permuted) && Consistent(files)
    ensures JudgeOf((id, GroupOf(files, id))) == JudgeOf((id, GroupOf(permuted, id)))
  {
    var a, b := OwnFiles(files, id), OwnFiles(permuted, id);
    OwnPermuted(files, permuted, id);
    CasesPermuted(a, b);
    RepetitionsPermuted(a, b);
    PoolIsOrderFree();
    FromPermuted(PoolOutcomes, id, VendorOf(a), Fold(AddRepetitions, 0, a), CasesOf(a), CasesOf(b));
  }

  /** The locale's comparison tells the ids of different judges apart. */
  ghost predicate IdsUntied(le: Collation, files: seq<ResultFile>)
  {
    forall f, g | f in files && g in files && SameId(le, f.id, g.id) :: f.id == g.id
  }

  lemma IdsPermuted(le: Collation, files: seq<ResultFile>, permuted: seq<ResultFile>)
    requires TotalPreorder(le) && multiset(files) == multiset(permuted) && IdsUntied(le, files)
    ensures Sort(le, Ids(files)) == Sort(le, Ids(permuted))
  {
    SameIds(files, permuted);
    forall x, y | x in Ids(files) && y in Ids(files) && le(x, y) && le(y, x) ensures x == y {
      IdsOfFiles(files, x);
      IdsOfFiles(files, y);
      var f, g :| f in files && g in files && f.id == x && g.id == y;
      assert SameId(le, f.id, g.id);
    }
    SortPermuted(le, Ids(files), Ids(permuted));
  }

  lemma SameIds(files: seq<ResultFile>, permuted: seq<ResultFile>)
    requires multiset(files) == multiset(permuted)
    ensures multiset(Ids(files)) == multiset(Ids(permuted))
  {
    MembersOfPermuted(files, permuted);
    forall id ensures id in Ids(files) <==> id in Ids(permuted) {
      IdsOfFiles(files, id);
      IdsOfFiles(permuted, id);
    }
    IdsOfFiles(files, []);
    IdsOfFiles(permuted, []);
    DistinctMultiset(Ids(files));
    DistinctMultiset(Ids(permuted));
    assert (set id | id in Ids(files)) == (set id | id in Ids(permuted));
  }

  /** Whether files are refused does not depend on their order. */
  lemma ConsistentInAnyOrder(files: seq<ResultFile>, permuted: seq<ResultFile>)
    requires multiset(files) == multiset(permuted)
    ensures Consistent(files) <==> Consistent(permuted)
  {
    MembersOfPermuted(files, permuted);
  }

  lemma UntiedOrder(le: Collation, files: seq<ResultFile>, permuted: seq<ResultFile>)
    requires TotalPreorder(le) && multiset(files) == multiset(permuted) && Consistent(files) && IdsUntied(le, files)
    ensures Judges(le, permuted) == Judges(le, files)
  {
    IdsPermuted(le, files, permuted);
    var ids := Sort(le, Ids(files));
    forall i | 0 <= i < |ids| ensures Judges(le, files)[i] == Judges(le, permuted)[i] {
      JudgePermuted(files, permuted, ids[i]);
    }
  }

  lemma {:induction false} FirstId(files: seq<ResultFile>)
    requires files != []
    ensures Ids(files) != [] && Ids(files)[0] == files[0].id
  {
    if |files| > 1 {
      FirstId(files[..|files| - 1]);
    }
  }

  /** The ids that the locale's comparison cannot tell from `id`. */
  function TiedTo(le: Collation, id: Text): Text -> bool { (other: Text) => SameId(le, id, other) }

  function IdOf(j: Judge): Text { j.id }

  /** The first of some ids that the locale's comparison cannot tell from `id`. */
  function FirstTied(le: Collation, id: Text, ids: seq<Text>): Option<Text>
  {
    var tied := Filter(TiedTo(le, id), ids);
    if tied == [] then None else Some(tied[0])
  }

  lemma FirstTiedSorted(le: Collation, id: Text, ids: seq<Text>)
    requires TotalPreorder(le) && ids != [] && SameId(le, id, ids[0])
    ensures FirstTied(le, id, Sort(le, ids)) == Some(ids[0])
  {
    SortKeeps(le, TiedTo(le, id), ids);
    FilterCons(TiedTo(le, id), ids[0], ids[1..]);
    assert ids == [ids[0]] + ids[1..];
  }

  lemma FirstTiedId(le: Collation, files: seq<ResultFile>, id: Text)
    requires TotalPreorder(le) && files != [] && SameId(le, id, files[0].id)
    ensures FirstTied(le, id, Map(IdOf, Judges(le, files))) == Some(files[0].id)
  {
    IdsOfJudges(le, files);
    FirstId(files);
    FirstTiedSorted(le, id, Ids(files));
  }

  lemma IdsOfJudges(le: Collation, files: seq<ResultFile>)
    ensures Map(IdOf, Judges(le, files)) == Sort(le, Ids(files))
  {
  }

  ghost predicate SameInEveryFileOrder(le: Collation, files: seq<ResultFile>)
  {
    forall permuted | multiset(permuted) == multiset(files) :: Judges(le, permuted) == Judges(le, files)
  }

  lemma TiedJudge(le: Collation, files: seq<ResultFile>, permuted: seq<ResultFile>, id: Text)
    requires TotalPreorder(le) && SameInEveryFileOrder(le, files) && multiset(permuted) == multiset(files)
    requires permuted != [] && SameId(le, id, permuted[0].id)
    ensures FirstTied(le, id, Map(IdOf, Judges(le, files))) == Some(permuted[0].id)
  {
    FirstTiedId(le, permuted, id);
    assert Judges(le, permuted) == Judges(le, files);
  }

  lemma TiedOrder(le: Collation, files: seq<ResultFile>, f: ResultFile, g: ResultFile)
    requires TotalPreorder(le) && SameInEveryFileOrder(le, files) && f in files && g in files && SameId(le, f.id, g.id)
    ensures f.id == g.id
  {
    if f != g {
      var rest := MoveTwoToFront(files, f, g);
      TiedJudge(le, files, [f, g] + rest, f.id);
      TiedJudge(le, files, [g, f] + rest, f.id);
    }
  }

  /**
   * The order of the result files decides no pooled judge, nor the order of the judges, if and only
   * if the locale's comparison tells the ids of different judges apart.
   */
  lemma FileOrderExact(le: Collation, files: seq<ResultFile>)
    requires TotalPreorder(le) && Consistent(files)
    ensures SameInEveryFileOrder(le, files) <==> IdsUntied(le, files)
  {
    if IdsUntied(le, files) {
      forall permuted | multiset(permuted) == multiset(files) ensures Judges(le, permuted) == Judges(le, files) {
        UntiedOrder(le, files, permuted);
      }
    }
    if SameInEveryFileOrder(le, files) {
      forall f, g | f in files && g in files && SameId(le, f.id, g.id) ensures f.id == g.id {
        TiedOrder(le, files, f, g);
      }
    }
  }

  // ----- family rows

  datatype AllowedJudge = AllowedJudge(
    id: Text, vendor: string, recall: Option<real>, falseAlarmRate: Option<real>, costPerCaseUsd: Option<real>, cases: nat, best: bool)

  datatype FamilyRow = FamilyRow(family: string, allowed: seq<AllowedJudge>, best: Option<Text>, note: Option<string>)

  function NotOf(family: string): Judge -> bool { (j: Judge) => j.vendor != family }

  function Allowed(judges: seq<Judge>, family: string): seq<Judge> { Filter(NotOf(family), judges) }

  function Cell(best: Option<Judge>): Judge -> AllowedJudge
  {
    (j: Judge) => AllowedJudge(j.id, j.vendor, j.counts.recall, j.counts.falseAlarmRate, j.counts.costPerCaseUsd, j.counts.cases,
                               best.Some? && j.id == best.value.id)
  }

  function FamilyRowOf(le: Collation, judges: seq<Judge>, family: string): FamilyRow
  {
    var allowed := Allowed(judges, family);
    var best := BestAllowed(le, allowed);
    FamilyRow(family, Map(Cell(best), allowed), if best.Some? then Some(best.value.id) else None,
              if allowed == [] then Some("no allowed judge") else None)
  }

  lemma AllowedOrdered(le: Collation, judges: seq<Judge>, family: string)
    requires Ordered(le, judges)
    ensures Ordered(le, Allowed(judges, family))
  {
    FilterPairwise(IdBefore(le), NotOf(family), judges);
  }

  lemma IdTellsJudge(le: Collation, js: seq<Judge>, x: Judge, y: Judge)
    requires Pairwise(IdBefore(le), js) && x in js && y in js && x.id == y.id
    ensures x == y
  {
    var i :| 0 <= i < |js| && js[i] == x;
    var k :| 0 <= k < |js| && js[k] == y;
    assert i == k;
  }

  /** The best judge of a list in id order. */
  lemma BestOfOrdered(le: Collation, allowed: seq<Judge>, other: Judge)
    requires TotalPreorder(le) && Ordered(le, allowed) && allowed != []
    ensures BestAllowed(le, allowed).Some?
    ensures var best := BestAllowed(le, allowed).value;
      && best in allowed
      && (other in allowed && other.counts.recall.Some?
          ==> best.counts.recall.Some? && best.counts.recall.value >= other.counts.recall.value - 0.05)
      && (other in Window(allowed) && other != best ==> Beats(le, best, other) || (Tie(le, best, other) && StandsBefore(Window(allowed), best, other)))
      && (other in allowed ==> (other.id == best.id <==> other == best))
  {
    BestBeatsWindow(le, allowed, other);
    var best := BestAllowed(le, allowed).value;
    WindowMembers(allowed, best);
    if other in allowed && other.id == best.id {
      IdTellsJudge(le, allowed, best, other);
    }
  }

  /**
   * The best judge of a family: with any judge allowed there is one; it is not of the family's
   * vendor; when any allowed judge is measured it is measured and within the window of every
   * measured recall; and it beats by cost, false alarms and id every other judge in the window.
   */
  lemma BestJudge(le: Collation, judges: seq<Judge>, family: string, other: Judge)
    requires TotalPreorder(le) && Ordered(le, judges) && Allowed(judges, family) != []
    ensures BestAllowed(le, Allowed(judges, family)).Some?
    ensures var allowed := Allowed(judges, family); var best := BestAllowed(le, allowed).value;
      && best in judges && best.vendor != family
      && (other in judges && other.vendor != family && other.counts.recall.Some?
          ==> best.counts.recall.Some? && best.counts.recall.value >= other.counts.recall.value - 0.05)
      && (other in Window(allowed) && other != best ==> Beats(le, best, other) || (Tie(le, best, other) && StandsBefore(Window(allowed), best, other)))
  {
    AllowedOrdered(le, judges, family);
    BestOfOrdered(le, Allowed(judges, family), other);
  }

  /** A cell repeats its judge: id, vendor, both rates, cost per case and number of cases. */
  predicate Shows(c: AllowedJudge, j: Judge)
  {
    && c.id == j.id && c.vendor == j.vendor && c.cases == j.counts.cases
    && c.recall == j.counts.recall && c.falseAlarmRate == j.counts.falseAlarmRate && c.costPerCaseUsd == j.counts.costPerCaseUsd
  }

  /** A judge is allowed for a family exactly when it is of another vendor; with none the row says so and names no best. */
  lemma AllowedExact(le: Collation, judges: seq<Judge>, family: string, j: Judge)
    ensures j in Allowed(judges, family) <==> j in judges && j.vendor != family
    ensures var row := FamilyRowOf(le, judges, family);
      && (row.note == Some("no allowed judge") <==> forall k | k in judges :: k.vendor == family)
      && (row.note.Some? <==> row.note == Some("no allowed judge"))
      && (row.note.Some? ==> row.allowed == [] && row.best.None?)
  {
    var allowed := Allowed(judges, family);
    if allowed == [] {
      forall k | k in judges ensures k.vendor == family {
        assert k !in allowed;
      }
    } else {
      assert allowed[0] in judges && allowed[0].vendor != family;
    }
  }

  /** The cells of a row are its allowed judges, and exactly the cell of the best one is marked. */
  lemma MarkedCell(le: Collation, judges: seq<Judge>, family: string, i: nat)
    requires TotalPreorder(le) && Ordered(le, judges) && i < |Allowed(judges, family)|
    ensures var row, allowed := FamilyRowOf(le, judges, family), Allowed(judges, family);
      && row.family == family && |row.allowed| == |allowed| && row.note.None?
      && Shows(row.allowed[i], allowed[i])
      && (row.allowed[i].best <==> BestAllowed(le, allowed) == Some(allowed[i]))
      && (row.allowed[i].best <==> row.best == Some(allowed[i].id))
  {
    var allowed := Allowed(judges, family);
    AllowedOrdered(le, judges, family);
    BestOfOrdered(le, allowed, allowed[i]);
  }

  /** The family rows of the matrix. */
  function FamilyRows(le: Collation, judges: seq<Judge>): seq<FamilyRow>
  {
    seq(|WORKER_FAMILIES|, i requires 0 <= i < |WORKER_FAMILIES| => FamilyRowOf(le, judges, WORKER_FAMILIES[i]))
  }

  /** The matrix has one row for each of the five worker families, in this order. */
  lemma RowsOfFamilies(le: Collation, judges: seq<Judge>, i: nat)
    requires i < 5
    ensures |FamilyRows(le, judges)| == 5
    ensures FamilyRows(le, judges)[i].family == ["anthropic", "deepseek", "google", "openai", "zhipu"][i]
    ensures FamilyRows(le, judges)[i] == FamilyRowOf(le, judges, ["anthropic", "deepseek", "google", "openai", "zhipu"][i])
  {
  }

  ghost predicate SameRowsInEveryFileOrder(le: Collation, files: seq<ResultFile>)
  {
    forall permuted | multiset(permuted) == multiset(files) :: FamilyRows(le, Judges(le, permuted)) == FamilyRows(le, Judges(le, files))
  }

  lemma VendorOfJudge(le: Collation, files: seq<ResultFile>, j: Judge)
    requires Consistent(files) && files != []
    ensures j in Judges(le, files) && j.id == files[0].id ==> j.vendor == files[0].vendor
  {
    if j in Judges(le, files) && j.id == files[0].id {
      var i :| 0 <= i < |Judges(le, files)| && Judges(le, files)[i] == j;
      var id := Sort(le, Ids(files))[i];
      assert j == JudgeOf((id, GroupOf(files, id)));
      assert files[0] in OwnFiles(files, id) && OwnFiles(files, id)[0] in files;
    }
  }

  function JudgeTiedTo(le: Collation, id: Text): Judge -> bool { (j: Judge) => SameId(le, id, j.id) }

  /** The head of a list stays the head of what is kept, when it is kept. */
  lemma HeadKept(js: seq<Judge>, family: string)
    requires js != [] && js[0].vendor != family
    ensures Allowed(js, family) != [] && Allowed(js, family)[0] == js[0]
  {
    FilterCons(NotOf(family), js[0], js[1..]);
    assert js == [js[0]] + js[1..];
  }

  lemma AllowedTied(le: Collation, id: Text, js: seq<Judge>, family: string)
    ensures Filter(TiedTo(le, id), Map(IdOf, js)) == Map(IdOf, Filter(JudgeTiedTo(le, id), js))
    ensures Filter(TiedTo(le, id), Map(IdOf, Allowed(js, family))) == Map(IdOf, Allowed(Filter(JudgeTiedTo(le, id), js), family))
  {
    FilterMap(TiedTo(le, id), JudgeTiedTo(le, id), IdOf, js);
    FilterMap(TiedTo(le, id), JudgeTiedTo(le, id), IdOf, Allowed(js, family));
    FilterCommutes(JudgeTiedTo(le, id), NotOf(family), js);
  }

  /** Of the allowed judges whose ids tie with that of the first file, the first one is the first file's. */
  lemma FirstTiedAllowed(le: Collation, files: seq<ResultFile>, id: Text, family: string)
    requires TotalPreorder(le) && Consistent(files) && files != [] && SameId(le, id, files[0].id) && files[0].vendor != family
    ensures FirstTied(le, id, Map(IdOf, Allowed(Judges(le, files), family))) == Some(files[0].id)
  {
    var js := Judges(le, files);
    var tied := Filter(JudgeTiedTo(le, id), js);
    FirstTiedId(le, files, id);
    AllowedTied(le, id, js, family);
    assert tied[0] in js && tied[0].id == files[0].id;
    VendorOfJudge(le, files, tied[0]);
    HeadKept(tied, family);
  }

  function IdOfCell(c: AllowedJudge): Text { c.id }

  lemma RowTellsIds(le: Collation, judges: seq<Judge>, family: string)
    ensures Map(IdOfCell, FamilyRowOf(le, judges, family).allowed) == Map(IdOf, Allowed(judges, family))
  {
  }

  /** Two vendors leave a worker family of neither. */
  lemma ThirdFamily(v: string, w: string) returns (i: nat)
    ensures i < |WORKER_FAMILIES| && WORKER_FAMILIES[i] != v && WORKER_FAMILIES[i] != w
  {
    assert WORKER_FAMILIES[0] != WORKER_FAMILIES[1] && WORKER_FAMILIES[0] != WORKER_FAMILIES[2] && WORKER_FAMILIES[1] != WORKER_FAMILIES[2];
    i := if WORKER_FAMILIES[0] != v && WORKER_FAMILIES[0] != w then 0
         else if WORKER_FAMILIES[1] != v && WORKER_FAMILIES[1] != w then 1 else 2;
  }

  lemma TiedRow(le: Collation, files: seq<ResultFile>, permuted: seq<ResultFile>, id: Text, i: nat)
    requires TotalPreorder(le) && Consistent(files) && SameRowsInEveryFileOrder(le, files) && multiset(permuted) == multiset(files)
    requires permuted != [] && SameId(le, id, permuted[0].id) && i < |WORKER_FAMILIES| && permuted[0].vendor != WORKER_FAMILIES[i]
    ensures FirstTied(le, id, Map(IdOfCell, FamilyRows(le, Judges(le, files))[i].allowed)) == Some(permuted[0].id)
  {
    var family := WORKER_FAMILIES[i];
    ConsistentInAnyOrder(files, permuted);
    assert FamilyRows(le, Judges(le, permuted)) == FamilyRows(le, Judges(le, files));
    assert FamilyRows(le, Judges(le, permuted))[i] == FamilyRowOf(le, Judges(le, permuted), family);
    RowTellsIds(le, Judges(le, permuted), family);
    FirstTiedAllowed(le, permuted, id, family);
  }

  lemma TiedRows(le: Collation, files: seq<ResultFile>, f: ResultFile, g: ResultFile)
    requires TotalPreorder(le) && Consistent(files) && SameRowsInEveryFileOrder(le, files)
    requires f in files && g in files && SameId(le, f.id, g.id)
    ensures f.id == g.id
  {
    if f != g {
      var rest := MoveTwoToFront(files, f, g);
      var i := ThirdFamily(f.vendor, g.vendor);
      TiedRow(le, files, [f, g] + rest, f.id, i);
      TiedRow(le, files, [g, f] + rest, f.id, i);
    }
  }

  /**
   * The rows of the matrix do not depend on the order of the result files if and only if the
   * locale's comparison tells the ids of different judges apart.
   */
  lemma MatrixOrderExact(le: Collation, files: seq<ResultFile>)
    requires TotalPreorder(le) && Consistent(files)
    ensures SameRowsInEveryFileOrder(le, files) <==> IdsUntied(le, files)
  {
    if IdsUntied(le, files) {
      forall permuted | multiset(permuted) == multiset(files)
        ensures FamilyRows(le, Judges(le, permuted)) == FamilyRows(le, Judges(le, files))
      {
        UntiedOrder(le, files, permuted);
      }
    }
    if SameRowsInEveryFileOrder(le, files) {
      forall f, g | f in files && g in files && SameId(le, f.id, g.id) ensures f.id == g.id {
        TiedRows(le, files, f, g);
      }
    }
  }

  lemma IdsOfOne(f: ResultFile)
    ensures Ids([f]) == [f.id]
  {
    assert [f][..0] == [];
  }

  lemma IdsOfTwo(f: ResultFile, g: ResultFile)
    requires f.id != g.id
    ensures Ids([f, g]) == [f.id, g.id]
  {
    IdsOfOne(f);
    assert [f, g][..1] == [f];
  }

  lemma TwoJudges(le: Collation, f: ResultFile, g: ResultFile)
    requires le(f.id, g.id) && f.id != g.id
    ensures Judges(le, [f, g]) == [JudgeOf((f.id, GroupFrom([f]))), JudgeOf((g.id, GroupFrom([g])))]
  {
    IdsOfTwo(f, g);
    SortPair(le, f.id, g.id);
    FilterPair(Own(f.id), f, g);
    FilterPair(Own(g.id), f, g);
  }

  lemma WindowOfTwo(x: Judge, y: Judge)
    requires x.counts == y.counts
    ensures Window([x, y]) == [x, y]
  {
    FilterPair(IsMeasured, x, y);
    if IsMeasured(x) {
      var highest := HighestRecall([x, y]);
      assert Map(RecallOf, [x, y]) == [RecallOf(x), RecallOf(y)];
      FilterPair(InWindow(highest), x, y);
    }
  }

  lemma FirstOfTwo(le: Collation, x: Judge, y: Judge)
    requires TotalPreorder(le) && x.counts == y.counts && SameId(le, x.id, y.id)
    ensures BestAllowed(le, [x, y]) == Some(x)
  {
    WindowOfTwo(x, y);
    assert MayPrecede(le, x, y);
    SortPair(NotAfter(le), x, y);
  }

  /**
   * Where the locale finds two ids equal, the file read first wins: of two judges with the same
   * outcomes, the best of every family allowed both is the one whose file comes first.
   */
  lemma WinnerFollowsFileOrder(le: Collation, f: ResultFile, g: ResultFile, family: string)
    requires TotalPreorder(le) && SameId(le, f.id, g.id) && f.id != g.id && f.cases == g.cases
    requires f.vendor != family && g.vendor != family
    ensures FamilyRowOf(le, Judges(le, [f, g]), family).best == Some(f.id)
    ensures FamilyRowOf(le, Judges(le, [g, f]), family).best == Some(g.id)
  {
    FirstFileWins(le, f, g, family);
    FirstFileWins(le, g, f, family);
  }

  lemma JudgeOfFile(f: ResultFile)
    ensures var j := JudgeOf((f.id, GroupFrom([f]))); j.id == f.id && j.vendor == f.vendor && j.counts == PoolOutcomes(f.cases)
  {
    assert CasesOf([f]) == CasesOf([]) + f.cases == f.cases;
  }

  lemma FirstFileWins(le: Collation, f: ResultFile, g: ResultFile, family: string)
    requires TotalPreorder(le) && SameId(le, f.id, g.id) && f.id != g.id && f.cases == g.cases
    requires f.vendor != family && g.vendor != family
    ensures FamilyRowOf(le, Judges(le, [f, g]), family).best == Some(f.id)
  {
    TwoJudges(le, f, g);
    JudgeOfFile(f);
    JudgeOfFile(g);
    var x, y := JudgeOf((f.id, GroupFrom([f]))), JudgeOf((g.id, GroupFrom([g])));
    FilterPair(NotOf(family), x, y);
    FirstOfTwo(le, x, y);
  }

  /** A judge below the window of an allowed judge can be added or removed without changing the best. */
  lemma BestIgnoresJudgeBelowWindow(le: Collation, above: seq<Judge>, j: Judge, below: seq<Judge>, family: string, k: Judge)
    requires k in Allowed(above + below, family) && FarBelow(j, k)
    ensures FamilyRowOf(le, above + [j] + below, family).best == FamilyRowOf(le, above + below, family).best
  {
    AllowedInserted(above, j, below, family);
    if j.vendor != family {
      BelowWindowIsIgnored(le, Allowed(above, family), j, Allowed(below, family), k);
    }
  }

  lemma AllowedInserted(above: seq<Judge>, j: Judge, below: seq<Judge>, family: string)
    ensures var a, b := Allowed(above, family), Allowed(below, family);
      && Allowed(above + below, family) == a + b
      && Allowed(above + [j] + below, family) == if j.vendor != family then a + [j] + b else a + b
  {
    FilterInserted(NotOf(family), above, j, below);
    FilterAppend(NotOf(family), above, below);
    assert Allowed(above, family) + [] == Allowed(above, family);
  }
}

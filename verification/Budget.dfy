/**
 * The hard allowance of evals/budget.mjs: a ledger on which concurrent invocations
 * reserve an estimate and later settle it by completion, voiding or refusal.
 *
 * `Ledger` and `Apply` give the state machine as values, one step per call.  The class
 * `StochasticBudget` updates its fields in place and is proved to take exactly those steps.
 */
module Budget {
  import opened Collections

  /** A number of the modelled language: a dollar amount, or NaN or an infinity. */
  datatype Number = Finite(value: real) | NotFinite

  predicate FiniteNonNegative(n: Number)
  {
    n.Finite? && n.value >= 0.0
  }

  datatype Pricing = Pricing(inputPerMTok: Option<Number>, cachedInputPerMTok: Option<Number>, outputPerMTok: Option<Number>)
  datatype Runtime = Name(name: string) | Description(id: Option<string>, model: Option<string>, pricing: Option<Pricing>)
  datatype Usage = Usage(inputTokens: Option<Number>, cacheReadInputTokens: Option<Number>, outputTokens: Option<Number>)
  datatype Estimate = Amount(usd: Number) | Described(usage: Option<Usage>, estimateUsd: Option<Number>)
  datatype Provenance = Unstated | SaidPriced | SaidUnknown
  datatype Record = Record(usage: Option<Usage>, costUsd: Option<Number>, costProvenance: Provenance, observedCostUsd: Option<Number>)

  /** A reservation object; `serial` stands for its identity. */
  datatype Reservation = Reservation(serial: nat, runtime: Runtime, estimateUsd: real, startedAt: string)

  /** The price table, a parameter of the model: a runtime, its usage and a reported cost give a cost, if any. */
  type PriceUsage = (Runtime, Option<Usage>, Option<Number>) -> Option<Number>

  type Observed = map<string, real>

  datatype Ledger = Ledger(
    budgetUsd: real,
    spendUsd: real,
    pricedSpendUsd: real,
    unknownSpendUsd: real,
    voidedSpendUsd: real,
    voidedInvocations: nat,
    refusedInvocations: nat,
    highestObservedUsd: Observed,
    inFlight: set<Reservation>,
    nextSerial: nat)

  datatype Basis = Priced | Stated | Fallback
  datatype Refusal = NoEstimate | UnknownAsZero | NotActive
  datatype Outcome =
    | Admitted(reservation: Reservation)
    | Stopped
    | Completed(reservation: Reservation, charge: real, basis: Basis)
    | Voided(reservation: Reservation, charge: real, basis: Basis)
    | Released(reservation: Reservation)
    | Failed(reason: Refusal)

  datatype Op =
    | Start(runtime: Runtime, estimate: Estimate, startedAt: string)
    | Complete(reservation: Reservation, record: Record)
    | Void(reservation: Reservation, record: Record)
    | Refuse(reservation: Reservation)

  function Max(a: real, b: real): real { if a >= b then a else b }

  // ----- the pure helpers

  function RuntimeKey(runtime: Runtime): string
  {
    match runtime
    case Name(name) => name
    case Description(Some(id), _, _) => id
    case Description(None, Some(model), _) => model
    case Description(None, None, _) => "unknown-runtime"
  }

  function PricedCost(price: PriceUsage, runtime: Runtime, usage: Option<Usage>, reported: Option<Number>): (r: Option<real>)
    ensures r.Some? ==> r.value >= 0.0
  {
    var priced := price(if runtime.Name? then Description(None, Some(runtime.name), None) else runtime, usage, reported);
    if priced.Some? && FiniteNonNegative(priced.value) then Some(priced.value.value) else None
  }

  /** The observed cost of a key when it is positive. */
  function PositiveObserved(highest: Observed, key: string): (r: Option<real>)
    ensures r.Some? ==> r.value > 0.0
  {
    if key in highest && highest[key] > 0.0 then Some(highest[key]) else None
  }

  function EstimateFor(price: PriceUsage, runtime: Runtime, estimate: Estimate, highest: Observed): (r: Option<real>)
    ensures r.Some? ==> r.value >= 0.0
  {
    match estimate
    case Amount(usd) => if FiniteNonNegative(usd) then Some(usd.value) else None
    case Described(_, Some(usd)) => if FiniteNonNegative(usd) then Some(usd.value) else None
    case Described(usage, None) =>
      var priced := PricedCost(price, runtime, usage, None);
      if priced.Some? then priced else PositiveObserved(highest, RuntimeKey(runtime))
  }

  function Raise(highest: Observed, key: string, cost: real): Observed
  {
    highest[key := Max(if key in highest then highest[key] else 0.0, cost)]
  }

  /** What an invocation without a price is charged. */
  function FallbackCharge(highest: Observed, r: Reservation): real
  {
    var observed := PositiveObserved(highest, RuntimeKey(r.runtime));
    if observed.Some? then observed.value else r.estimateUsd
  }

  ghost function ReservedUsd(inFlight: set<Reservation>): real
  {
    SumOver((r: Reservation) => r.estimateUsd, inFlight)
  }

  /** Everything the allowance has to cover: spent, voided and reserved. */
  ghost function Committed(l: Ledger): real
  {
    l.spendUsd + l.voidedSpendUsd + ReservedUsd(l.inFlight)
  }

  // ----- the steps

  ghost function StartStep(price: PriceUsage, l: Ledger, runtime: Runtime, estimate: Estimate, startedAt: string): (Ledger, Outcome)
  {
    var usd := EstimateFor(price, runtime, estimate, l.highestObservedUsd);
    if usd.None? then (l, Failed(NoEstimate))
    else if Committed(l) + usd.value >= l.budgetUsd then (l, Stopped)
    else
      var r := Reservation(l.nextSerial, runtime, usd.value, startedAt);
      (l.(inFlight := l.inFlight + {r}, nextSerial := l.nextSerial + 1), Admitted(r))
  }

  /** A completion's evidence is recorded first, even when the settlement then fails. */
  function Observe(l: Ledger, r: Reservation, record: Record): Ledger
  {
    if record.observedCostUsd.Some? && FiniteNonNegative(record.observedCostUsd.value)
    then l.(highestObservedUsd := Raise(l.highestObservedUsd, RuntimeKey(r.runtime), record.observedCostUsd.value.value))
    else l
  }

  function CompletionPrice(price: PriceUsage, r: Reservation, record: Record): (p: Option<real>)
    ensures p.Some? ==> p.value >= 0.0
  {
    if record.costProvenance.SaidUnknown? then None else PricedCost(price, r.runtime, record.usage, record.costUsd)
  }

  function CompleteStep(price: PriceUsage, l0: Ledger, r: Reservation, record: Record): (Ledger, Outcome)
  {
    var l := Observe(l0, r, record);
    var priced := CompletionPrice(price, r, record);
    var stated := record.costProvenance.SaidUnknown? && record.costUsd.Some?;
    var cost := if stated then record.costUsd.value else if priced.Some? then Finite(priced.value) else Finite(FallbackCharge(l.highestObservedUsd, r));
    if cost.NotFinite? || (priced.None? && cost.value <= 0.0) then (l, Failed(UnknownAsZero))
    else if r !in l.inFlight then (l, Failed(NotActive))
    else
      var paid := l.(inFlight := l.inFlight - {r}, spendUsd := l.spendUsd + cost.value);
      if priced.None? then
        (paid.(unknownSpendUsd := l.unknownSpendUsd + cost.value), Completed(r, cost.value, if stated then Stated else Fallback))
      else
        (paid.(pricedSpendUsd := l.pricedSpendUsd + cost.value,
               highestObservedUsd := Raise(l.highestObservedUsd, RuntimeKey(r.runtime), cost.value)),
         Completed(r, cost.value, Priced))
  }

  function VoidStep(price: PriceUsage, l: Ledger, r: Reservation, record: Record): (Ledger, Outcome)
  {
    var priced := PricedCost(price, r.runtime, record.usage, record.costUsd);
    var cost := if priced.Some? then priced.value else FallbackCharge(l.highestObservedUsd, r);
    if priced.None? && cost <= 0.0 then (l, Failed(UnknownAsZero))
    else if r !in l.inFlight then (l, Failed(NotActive))
    else
      (l.(inFlight := l.inFlight - {r},
          voidedSpendUsd := l.voidedSpendUsd + cost,
          voidedInvocations := l.voidedInvocations + 1,
          highestObservedUsd := if priced.Some? then Raise(l.highestObservedUsd, RuntimeKey(r.runtime), cost) else l.highestObservedUsd),
       Voided(r, cost, if priced.Some? then Priced else Fallback))
  }

  function RefuseStep(l: Ledger, r: Reservation): (Ledger, Outcome)
  {
    if r !in l.inFlight then (l, Failed(NotActive))
    else (l.(inFlight := l.inFlight - {r}, refusedInvocations := l.refusedInvocations + 1), Released(r))
  }

  ghost function Apply(price: PriceUsage, l: Ledger, op: Op): (Ledger, Outcome)
  {
    match op
    case Start(runtime, estimate, startedAt) => StartStep(price, l, runtime, estimate, startedAt)
    case Complete(r, record) => CompleteStep(price, l, r, record)
    case Void(r, record) => VoidStep(price, l, r, record)
    case Refuse(r) => RefuseStep(l, r)
  }

  /** The ledger and the trace of outcomes after any interleaving of calls. */
  ghost function Run(price: PriceUsage, l: Ledger, ops: seq<Op>): (r: (Ledger, seq<Outcome>))
    ensures |r.1| == |ops|
  {
    if ops == [] then (l, []) else
    var before := Run(price, l, ops[..|ops| - 1]);
    var step := Apply(price, before.0, ops[|ops| - 1]);
    (step.0, before.1 + [step.1])
  }

  /** A ledger as the constructor leaves it. */
  predicate Fresh(l: Ledger)
  {
    && l.budgetUsd >= 0.0
    && l.spendUsd == l.pricedSpendUsd == l.unknownSpendUsd == l.voidedSpendUsd == 0.0
    && l.voidedInvocations == l.refusedInvocations == 0
    && l.inFlight == {}
  }

  // ----- what a trace says

  predicate IsAdmitted(o: Outcome) { o.Admitted? }
  predicate IsCompleted(o: Outcome) { o.Completed? }
  predicate IsVoided(o: Outcome) { o.Voided? }
  predicate IsReleased(o: Outcome) { o.Released? }
  predicate PaidPriced(o: Outcome) { o.Completed? && o.basis.Priced? }
  predicate PaidUnknown(o: Outcome) { o.Completed? && !o.basis.Priced? }

  predicate Settles(o: Outcome, r: Reservation)
  {
    (o.Completed? || o.Voided? || o.Released?) && o.reservation == r
  }

  function AdmissionsOf(r: Reservation, trace: seq<Outcome>): nat
  {
    if trace == [] then 0 else AdmissionsOf(r, trace[..|trace| - 1]) + if trace[|trace| - 1] == Admitted(r) then 1 else 0
  }

  function SettlementsOf(r: Reservation, trace: seq<Outcome>): nat
  {
    if trace == [] then 0 else SettlementsOf(r, trace[..|trace| - 1]) + if Settles(trace[|trace| - 1], r) then 1 else 0
  }

  predicate PricedFor(o: Outcome, key: string)
  {
    (o.Completed? || o.Voided?) && o.basis.Priced? && RuntimeKey(o.reservation.runtime) == key
  }

  function CountIf(p: Outcome -> bool, trace: seq<Outcome>): nat
  {
    if trace == [] then 0 else CountIf(p, trace[..|trace| - 1]) + if p(trace[|trace| - 1]) then 1 else 0
  }

  function SumCharges(p: Outcome -> bool, trace: seq<Outcome>): real
  {
    if trace == [] then 0.0 else
    var o := trace[|trace| - 1];
    SumCharges(p, trace[..|trace| - 1]) + if (o.Completed? || o.Voided?) && p(o) then o.charge else 0.0
  }

  /** By how much charges exceeded their estimates since the last admitted start. */
  function Excess(trace: seq<Outcome>): (e: real)
    ensures e >= 0.0
  {
    if trace == [] then 0.0 else
    match trace[|trace| - 1]
    case Admitted(_) => 0.0
    case Completed(r, charge, _) => Excess(trace[..|trace| - 1]) + Max(0.0, charge - r.estimateUsd)
    case Voided(r, charge, _) => Excess(trace[..|trace| - 1]) + Max(0.0, charge - r.estimateUsd)
    case _ => Excess(trace[..|trace| - 1])
  }

  // ----- invariants of every reachable ledger

  lemma RunStep(price: PriceUsage, l: Ledger, ops: seq<Op>) returns (before: Ledger, trace: seq<Outcome>, after: Ledger, o: Outcome)
    requires ops != []
    ensures (before, trace) == Run(price, l, ops[..|ops| - 1])
    ensures (after, o) == Apply(price, before, ops[|ops| - 1])
    ensures Run(price, l, ops) == (after, trace + [o])
    ensures (trace + [o])[..|trace|] == trace
  {
    before, trace := Run(price, l, ops[..|ops| - 1]).0, Run(price, l, ops[..|ops| - 1]).1;
    after, o := Apply(price, before, ops[|ops| - 1]).0, Apply(price, before, ops[|ops| - 1]).1;
    assert (trace + [o])[..|trace|] == trace;
  }

  /** Estimates in flight are never negative, and every serial handed out is below the next. */
  predicate Valid(l: Ledger)
  {
    forall r | r in l.inFlight :: r.estimateUsd >= 0.0 && r.serial < l.nextSerial
  }

  lemma {:induction false} ReachableValid(price: PriceUsage, l: Ledger, ops: seq<Op>)
    requires Fresh(l)
    ensures Valid(Run(price, l, ops).0)
    ensures Run(price, l, ops).0.budgetUsd == l.budgetUsd
    decreases |ops|
  {
    if ops != [] {
      ReachableValid(price, l, ops[..|ops| - 1]);
    }
  }

  /** What one step does to the committed amount. */
  lemma CommittedStep(price: PriceUsage, l: Ledger, op: Op)
    requires Valid(l)
    ensures var (after, o) := Apply(price, l, op);
      match o
      case Admitted(r) => Committed(after) == Committed(l) + r.estimateUsd && Committed(after) < l.budgetUsd
      case Completed(r, charge, _) => Committed(after) == Committed(l) + charge - r.estimateUsd && r.estimateUsd >= 0.0
      case Voided(r, charge, _) => Committed(after) == Committed(l) + charge - r.estimateUsd && r.estimateUsd >= 0.0
      case Released(r) => Committed(after) == Committed(l) - r.estimateUsd && r.estimateUsd >= 0.0
      case _ => Committed(after) == Committed(l)
  {
    var (after, o) := Apply(price, l, op);
    if o.Admitted? {
      assert o.reservation !in l.inFlight;
      SumOverRemove((r: Reservation) => r.estimateUsd, after.inFlight, o.reservation);
      assert after.inFlight - {o.reservation} == l.inFlight;
    } else if o.Completed? || o.Voided? || o.Released? {
      SumOverRemove((r: Reservation) => r.estimateUsd, l.inFlight, o.reservation);
    }
  }

  /**
   * The allowance is a real cap: after any interleaving, what is spent, voided and reserved
   * exceeds the budget by no more than settled charges exceeded their estimates since the
   * last admission.
   */
  lemma {:induction false} OverrunBound(price: PriceUsage, l: Ledger, ops: seq<Op>)
    requires Fresh(l)
    ensures Committed(Run(price, l, ops).0) <= l.budgetUsd + Excess(Run(price, l, ops).1)
    decreases |ops|
  {
    if ops != [] {
      OverrunBound(price, l, ops[..|ops| - 1]);
      ReachableValid(price, l, ops[..|ops| - 1]);
      var before, trace, after, o := RunStep(price, l, ops);
      CommittedStep(price, before, ops[|ops| - 1]);
    }
  }

  /** By how much settlements moved the committed amount since the last admitted start. */
  function Drift(trace: seq<Outcome>): real
  {
    if trace == [] then 0.0 else
    match trace[|trace| - 1]
    case Admitted(_) => 0.0
    case Completed(r, charge, _) => Drift(trace[..|trace| - 1]) + charge - r.estimateUsd
    case Voided(r, charge, _) => Drift(trace[..|trace| - 1]) + charge - r.estimateUsd
    case Released(r) => Drift(trace[..|trace| - 1]) - r.estimateUsd
    case _ => Drift(trace[..|trace| - 1])
  }

  /** The committed amount just after the last admitted start, or at the beginning when there is none. */
  ghost function Base(price: PriceUsage, l: Ledger, ops: seq<Op>): real
  {
    if ops == [] then Committed(l) else
    var before := Run(price, l, ops[..|ops| - 1]).0;
    var step := Apply(price, before, ops[|ops| - 1]);
    if step.1.Admitted? then Committed(step.0) else Base(price, l, ops[..|ops| - 1])
  }

  lemma {:induction false} CommittedIsBaseAndDrift(price: PriceUsage, l: Ledger, ops: seq<Op>)
    requires Fresh(l)
    ensures Committed(Run(price, l, ops).0) == Base(price, l, ops) + Drift(Run(price, l, ops).1)
    ensures Base(price, l, ops) <= l.budgetUsd
    decreases |ops|
  {
    if ops != [] {
      CommittedIsBaseAndDrift(price, l, ops[..|ops| - 1]);
      ReachableValid(price, l, ops[..|ops| - 1]);
      var before, trace, after, o := RunStep(price, l, ops);
      CommittedStep(price, before, ops[|ops| - 1]);
    }
  }

  /**
   * Exactly when the cap is crossed: what is spent, voided and reserved is within the budget if and
   * only if settlements since the last admission did not use up the room it left.
   */
  lemma CapExact(price: PriceUsage, l: Ledger, ops: seq<Op>)
    requires Fresh(l)
    ensures Committed(Run(price, l, ops).0) <= l.budgetUsd <==> Drift(Run(price, l, ops).1) <= l.budgetUsd - Base(price, l, ops)
    ensures Base(price, l, ops) <= l.budgetUsd
  {
    CommittedIsBaseAndDrift(price, l, ops);
  }

  predicate IsSettlement(o: Outcome) { o.Completed? || o.Voided? }

  /** What a caller can compare before a settlement: its charge beyond the estimate, and the room left. */
  ghost predicate Fits(price: PriceUsage, l: Ledger, op: Op)
  {
    var o := Apply(price, l, op).1;
    IsSettlement(o) ==> o.charge - o.reservation.estimateUsd <= l.budgetUsd - Committed(l)
  }

  /** One call keeps the cap if and only if the charge beyond its estimate fits in the room left. */
  lemma CallKeepsCap(price: PriceUsage, l: Ledger, op: Op)
    requires Valid(l) && Committed(l) <= l.budgetUsd
    ensures Committed(Apply(price, l, op).0) <= l.budgetUsd <==> Fits(price, l, op)
  {
    CommittedStep(price, l, op);
  }

  ghost predicate WithinCap(price: PriceUsage, l: Ledger, ops: seq<Op>)
  {
    Committed(Run(price, l, ops).0) <= l.budgetUsd
  }

  ghost predicate FitsAt(price: PriceUsage, l: Ledger, ops: seq<Op>, n: nat)
    requires n < |ops|
  {
    Fits(price, Run(price, l, ops[..n]).0, ops[n])
  }

  lemma FitsStep(price: PriceUsage, l: Ledger, ops: seq<Op>, n: nat)
    requires Fresh(l) && n < |ops| && WithinCap(price, l, ops[..n])
    ensures FitsAt(price, l, ops, n) <==> WithinCap(price, l, ops[..n + 1])
  {
    ReachableValid(price, l, ops[..n]);
    CallKeepsCap(price, Run(price, l, ops[..n]).0, ops[n]);
    assert ops[..n + 1][..n] == ops[..n];
  }

  lemma {:induction false} FitsKeeps(price: PriceUsage, l: Ledger, ops: seq<Op>, n: nat)
    requires Fresh(l) && n <= |ops| && forall k | 0 <= k < n :: FitsAt(price, l, ops, k)
    ensures WithinCap(price, l, ops[..n])
  {
    if n > 0 {
      FitsKeeps(price, l, ops, n - 1);
      FitsStep(price, l, ops, n - 1);
    } else {
      assert ReservedUsd({}) == 0.0;
    }
  }

  /** A run stays within the cap throughout if and only if every call of it fits. */
  lemma CapNeverCrossed(price: PriceUsage, l: Ledger, ops: seq<Op>)
    requires Fresh(l)
    ensures (forall n | 0 <= n <= |ops| :: WithinCap(price, l, ops[..n])) <==> (forall n | 0 <= n < |ops| :: FitsAt(price, l, ops, n))
  {
    if forall n | 0 <= n < |ops| :: FitsAt(price, l, ops, n) {
      forall n | 0 <= n <= |ops| ensures WithinCap(price, l, ops[..n]) {
        FitsKeeps(price, l, ops, n);
      }
    }
    if forall n | 0 <= n <= |ops| :: WithinCap(price, l, ops[..n]) {
      forall n | 0 <= n < |ops| ensures FitsAt(price, l, ops, n) {
        FitsStep(price, l, ops, n);
      }
    }
  }

  /** The cap can be crossed: an estimate of 1 is admitted on a budget of 10 and settles at a price of 50. */
  lemma CapCanBeCrossed() returns (price: PriceUsage, l: Ledger, ops: seq<Op>)
    ensures Fresh(l) && l.budgetUsd == 10.0
    ensures Committed(Run(price, l, ops).0) == 50.0 && OverrunUsd(Run(price, l, ops).0) == 40.0
  {
    price := (runtime: Runtime, usage: Option<Usage>, reported: Option<Number>) => reported;
    l := Ledger(10.0, 0.0, 0.0, 0.0, 0.0, 0, 0, map[], {}, 0);
    var start, r := Start(Name("m"), Amount(Finite(1.0)), ""), Reservation(0, Name("m"), 1.0, "");
    var complete := Complete(r, Record(None, Some(Finite(50.0)), Unstated, None));
    ops := [start, complete];
    assert ops[..1] == [start] && [start][..0] == [];
    assert ReservedUsd({}) == 0.0;
    var one, two := Ledger(10.0, 0.0, 0.0, 0.0, 0.0, 0, 0, map[], {r}, 1), Ledger(10.0, 50.0, 50.0, 0.0, 0.0, 0, 0, map["m" := 50.0], {}, 1);
    assert {} + {r} == {r} && {r} - {r} == {};
    assert Apply(price, l, start).0 == one;
    assert Run(price, l, [start]).0 == one;
    assert Raise(map[], "m", 50.0) == map["m" := 50.0];
    assert Apply(price, one, complete).0 == two;
    assert Run(price, l, ops).0 == two;
  }

  predicate WithinEstimate(o: Outcome)
  {
    o.Completed? || o.Voided? ==> o.charge <= o.reservation.estimateUsd
  }

  lemma {:induction false} NoExcess(trace: seq<Outcome>)
    requires forall o | o in trace :: WithinEstimate(o)
    ensures Excess(trace) == 0.0
  {
    if trace != [] {
      assert WithinEstimate(trace[|trace| - 1]);
      NoExcess(trace[..|trace| - 1]);
    }
  }

  /** If no charge exceeds its estimate the cap is never crossed and no overrun is reported. */
  lemma CapHolds(price: PriceUsage, l: Ledger, ops: seq<Op>)
    requires Fresh(l)
    requires forall o | o in Run(price, l, ops).1 :: WithinEstimate(o)
    ensures Committed(Run(price, l, ops).0) <= l.budgetUsd
    ensures OverrunUsd(Run(price, l, ops).0) == 0.0
  {
    OverrunBound(price, l, ops);
    NoExcess(Run(price, l, ops).1);
    ReachableValid(price, l, ops);
    ReservedNonNegative(Run(price, l, ops).0.inFlight);
  }

  lemma {:induction false} ReservedNonNegative(inFlight: set<Reservation>)
    requires forall r | r in inFlight :: r.estimateUsd >= 0.0
    ensures ReservedUsd(inFlight) >= 0.0
  {
    if inFlight != {} {
      var r :| r in inFlight;
      SumOverRemove((r: Reservation) => r.estimateUsd, inFlight, r);
      ReservedNonNegative(inFlight - {r});
    }
  }

  function OverrunUsd(l: Ledger): real
  {
    Max(0.0, l.spendUsd + l.voidedSpendUsd - l.budgetUsd)
  }

  /** The overrun a result reports is covered by the excess charges since the last admission. */
  lemma ReportedOverrun(price: PriceUsage, l: Ledger, ops: seq<Op>)
    requires Fresh(l)
    ensures OverrunUsd(Run(price, l, ops).0) <= Excess(Run(price, l, ops).1)
  {
    OverrunBound(price, l, ops);
    ReachableValid(price, l, ops);
    ReservedNonNegative(Run(price, l, ops).0.inFlight);
  }

  /** A zero budget admits nothing, ever, and so spends nothing. */
  lemma {:induction false} ZeroBudgetAdmitsNothing(price: PriceUsage, l: Ledger, ops: seq<Op>)
    requires Fresh(l) && l.budgetUsd == 0.0
    ensures forall o | o in Run(price, l, ops).1 :: o.Stopped? || o.Failed?
    ensures Committed(Run(price, l, ops).0) == 0.0 && Run(price, l, ops).0.inFlight == {}
    ensures Run(price, l, ops).0.spendUsd == 0.0
    decreases |ops|
  {
    if ops != [] {
      ZeroBudgetAdmitsNothing(price, l, ops[..|ops| - 1]);
      ReachableValid(price, l, ops[..|ops| - 1]);
      var before, trace, after, o := RunStep(price, l, ops);
      CommittedStep(price, before, ops[|ops| - 1]);
    }
  }

  // ----- conservation and exactly-once settlement

  /** How an outcome changes the reservations in flight. */
  predicate Moves(before: Ledger, o: Outcome, after: Ledger)
  {
    match o
    case Admitted(r) =>
      r !in before.inFlight && after.inFlight == before.inFlight + {r} && r.serial == before.nextSerial && after.nextSerial == r.serial + 1
    case Completed(r, _, _) => r in before.inFlight && after.inFlight == before.inFlight - {r} && after.nextSerial == before.nextSerial
    case Voided(r, _, _) => r in before.inFlight && after.inFlight == before.inFlight - {r} && after.nextSerial == before.nextSerial
    case Released(r) => r in before.inFlight && after.inFlight == before.inFlight - {r} && after.nextSerial == before.nextSerial
    case _ => after.inFlight == before.inFlight && after.nextSerial == before.nextSerial
  }

  lemma StepMoves(price: PriceUsage, l: Ledger, op: Op)
    requires Valid(l)
    ensures Moves(l, Apply(price, l, op).1, Apply(price, l, op).0)
  {
  }

  predicate OnceAtMost(r: Reservation, l: Ledger, trace: seq<Outcome>)
  {
    && AdmissionsOf(r, trace) <= 1
    && AdmissionsOf(r, trace) == SettlementsOf(r, trace) + (if r in l.inFlight then 1 else 0)
    && (r.serial >= l.nextSerial ==> AdmissionsOf(r, trace) == 0)
  }

  lemma OnceStep(before: Ledger, trace: seq<Outcome>, after: Ledger, o: Outcome, r: Reservation)
    requires OnceAtMost(r, before, trace) && Moves(before, o, after)
    ensures OnceAtMost(r, after, trace + [o])
  {
    assert (trace + [o])[..|trace|] == trace;
  }

  /**
   * Every reservation is admitted at most once, is settled only if it was admitted, and is
   * either still in flight or settled exactly once.
   */
  lemma {:induction false} ExactlyOnce(price: PriceUsage, l: Ledger, ops: seq<Op>, r: Reservation)
    requires Fresh(l)
    ensures OnceAtMost(r, Run(price, l, ops).0, Run(price, l, ops).1)
    decreases |ops|
  {
    if ops != [] {
      ExactlyOnce(price, l, ops[..|ops| - 1], r);
      ReachableValid(price, l, ops[..|ops| - 1]);
      var before, trace, after, o := RunStep(price, l, ops);
      StepMoves(price, before, ops[|ops| - 1]);
      OnceStep(before, trace, after, o, r);
    }
  }

  /** Spend is priced plus unknown spend; each total is what the outcomes of its kind charged. */
  predicate MoneyAccounted(l: Ledger, trace: seq<Outcome>)
  {
    && l.spendUsd == l.pricedSpendUsd + l.unknownSpendUsd
    && l.pricedSpendUsd == SumCharges(PaidPriced, trace)
    && l.unknownSpendUsd == SumCharges(PaidUnknown, trace)
    && l.voidedSpendUsd == SumCharges(IsVoided, trace)
  }

  /** The counters count their outcomes; an admitted start is in flight, completed, voided or refused. */
  predicate CallsAccounted(l: Ledger, trace: seq<Outcome>)
  {
    && l.voidedInvocations == CountIf(IsVoided, trace)
    && l.refusedInvocations == CountIf(IsReleased, trace)
    && CountIf(IsAdmitted, trace) == |l.inFlight| + CountIf(IsCompleted, trace) + l.voidedInvocations + l.refusedInvocations
  }

  lemma MoneyStep(price: PriceUsage, l: Ledger, trace: seq<Outcome>, op: Op)
    requires MoneyAccounted(l, trace)
    ensures MoneyAccounted(Apply(price, l, op).0, trace + [Apply(price, l, op).1])
  {
    var o := Apply(price, l, op).1;
    assert (trace + [o])[..|trace|] == trace && (trace + [o])[|trace|] == o;
  }

  lemma CallsStep(price: PriceUsage, l: Ledger, trace: seq<Outcome>, op: Op)
    requires CallsAccounted(l, trace) && Valid(l)
    ensures CallsAccounted(Apply(price, l, op).0, trace + [Apply(price, l, op).1])
  {
    var (after, o) := Apply(price, l, op);
    assert (trace + [o])[..|trace|] == trace && (trace + [o])[|trace|] == o;
    StepMoves(price, l, op);
    CountersStep(price, l, op);
  }

  lemma CountersStep(price: PriceUsage, l: Ledger, op: Op)
    ensures var (after, o) := Apply(price, l, op);
      && after.voidedInvocations == l.voidedInvocations + (if o.Voided? then 1 else 0)
      && after.refusedInvocations == l.refusedInvocations + if o.Released? then 1 else 0
  {
  }

  /** Nothing appears or vanishes, over every interleaving. */
  lemma {:induction false} Conservation(price: PriceUsage, l: Ledger, ops: seq<Op>)
    requires Fresh(l)
    ensures MoneyAccounted(Run(price, l, ops).0, Run(price, l, ops).1)
    ensures CallsAccounted(Run(price, l, ops).0, Run(price, l, ops).1)
    decreases |ops|
  {
    if ops != [] {
      var n := |ops| - 1;
      Conservation(price, l, ops[..n]);
      ReachableValid(price, l, ops[..n]);
      var before := Run(price, l, ops[..n]);
      MoneyStep(price, before.0, before.1, ops[n]);
      CallsStep(price, before.0, before.1, ops[n]);
    }
  }

  /** Whether a completion says its price is unknown and states a number all the same. */
  predicate IsStated(op: Op) { op.Complete? && op.record.costProvenance.SaidUnknown? && op.record.costUsd.Some? }

  /** A call that fails or is stopped changes nothing but the evidence a completion carried. */
  lemma FailureKeepsTotals(price: PriceUsage, l: Ledger, op: Op)
    ensures var (after, o) := Apply(price, l, op);
      o.Failed? || o.Stopped? ==>
        && after == l.(highestObservedUsd := after.highestObservedUsd)
        && (op.Complete? || after == l)
    ensures var (_, o) := Apply(price, l, op);
      !op.Start? && op.reservation !in l.inFlight ==> o.Failed?
    ensures var (_, o) := Apply(price, l, op);
      (&& op.Void? && PricedCost(price, op.reservation.runtime, op.record.usage, op.record.costUsd).None?
       && FallbackCharge(l.highestObservedUsd, op.reservation) <= 0.0) ==> o == Failed(UnknownAsZero)
    ensures var (_, o) := Apply(price, l, op);
      op.Complete? && CompletionPrice(price, op.reservation, op.record).None? ==>
        (o == Failed(UnknownAsZero) <==> if IsStated(op) then !(op.record.costUsd.value.Finite? && op.record.costUsd.value.value > 0.0)
                                         else FallbackCharge(Observe(l, op.reservation, op.record).highestObservedUsd, op.reservation) <= 0.0)
  {
  }

  // ----- the highest observed cost

  ghost predicate AtMost(a: Observed, b: Observed)
  {
    forall key | key in a :: key in b && a[key] <= b[key]
  }

  lemma HighestStep(price: PriceUsage, l: Ledger, op: Op)
    ensures AtMost(l.highestObservedUsd, Apply(price, l, op).0.highestObservedUsd)
  {
  }

  /** The highest observed cost of a key never decreases. */
  lemma {:induction false} HighestNeverDecreases(price: PriceUsage, l: Ledger, ops: seq<Op>, more: seq<Op>)
    ensures AtMost(Run(price, l, ops).0.highestObservedUsd, Run(price, l, ops + more).0.highestObservedUsd)
    decreases |more|
  {
    if more == [] {
      assert ops + more == ops;
    } else {
      var all := ops + more;
      assert all[..|all| - 1] == ops + more[..|more| - 1];
      HighestNeverDecreases(price, l, ops, more[..|more| - 1]);
      HighestStep(price, Run(price, l, all[..|all| - 1]).0, all[|all| - 1]);
    }
  }

  /** Every priced charge of a trace is remembered under its key. */
  ghost predicate Remembers(highest: Observed, trace: seq<Outcome>)
  {
    forall i | 0 <= i < |trace| && (trace[i].Completed? || trace[i].Voided?) && trace[i].basis.Priced? ::
      var key := RuntimeKey(trace[i].reservation.runtime);
      key in highest && trace[i].charge <= highest[key]
  }

  lemma {:induction false} ReachableRemembers(price: PriceUsage, l: Ledger, ops: seq<Op>)
    ensures Remembers(Run(price, l, ops).0.highestObservedUsd, Run(price, l, ops).1)
    decreases |ops|
  {
    if ops != [] {
      ReachableRemembers(price, l, ops[..|ops| - 1]);
      var before, trace, after, o := RunStep(price, l, ops);
      HighestStep(price, before, ops[|ops| - 1]);
      RecallStep(price, before, ops[|ops| - 1]);
    }
  }

  /** A priced charge is remembered by the step that makes it. */
  lemma RecallStep(price: PriceUsage, l: Ledger, op: Op)
    ensures Remembers(Apply(price, l, op).0.highestObservedUsd, [Apply(price, l, op).1])
  {
  }

  /**
   * Unknown is never cheap: in every reachable ledger, a settlement charged on neither a price
   * nor a stated number costs more than zero and at least as much as every priced charge that
   * was ever recorded for its runtime key.
   */
  lemma UnknownIsNeverCheap(price: PriceUsage, l: Ledger, ops: seq<Op>, op: Op, i: nat)
    requires var o := Apply(price, Run(price, l, ops).0, op).1; (o.Completed? || o.Voided?) && o.basis.Fallback?
    ensures Apply(price, Run(price, l, ops).0, op).1.charge > 0.0
    ensures var o := Apply(price, Run(price, l, ops).0, op).1;
      i < |ops| && PricedFor(Run(price, l, ops).1[i], RuntimeKey(o.reservation.runtime))
      ==> Run(price, l, ops).1[i].charge <= o.charge
  {
    ReachableRemembers(price, l, ops);
  }

  /** Where a remembered cost came from: evidence a completion carried, or a priced charge. */
  predicate IsEvidence(op: Op, o: Outcome, key: string, usd: real)
  {
    || (PricedFor(o, key) && o.charge == usd)
    || (op.Complete? && RuntimeKey(op.reservation.runtime) == key && op.record.observedCostUsd == Some(Finite(usd)))
  }

  /** A remembered cost was seeded or was really observed. */
  lemma {:induction false} HighestIsObserved(price: PriceUsage, l: Ledger, ops: seq<Op>, key: string)
    requires key in Run(price, l, ops).0.highestObservedUsd
    ensures var (after, trace) := Run(price, l, ops);
      var usd := after.highestObservedUsd[key];
      || (key in l.highestObservedUsd && l.highestObservedUsd[key] == usd)
      || exists i | 0 <= i < |ops| :: IsEvidence(ops[i], trace[i], key, usd)
    decreases |ops|
  {
    if ops != [] {
      var before, trace, after, o := RunStep(price, l, ops);
      var n := |ops| - 1;
      var usd := after.highestObservedUsd[key];
      if key in before.highestObservedUsd && before.highestObservedUsd[key] == usd {
        HighestIsObserved(price, l, ops[..n], key);
        if !(key in l.highestObservedUsd && l.highestObservedUsd[key] == usd) {
          var i :| 0 <= i < n && IsEvidence(ops[..n][i], trace[i], key, usd);
          assert IsEvidence(ops[i], (trace + [o])[i], key, usd);
        }
      } else {
        assert IsEvidence(ops[n], (trace + [o])[n], key, usd);
      }
    }
  }

  // ----- the class

  /** The allowance a caller may pass, and the prior evidence it may seed. */
  datatype Seed = FromMap(entries: map<string, real>) | FromRecord(record: map<string, Number>)

  function SeedOf(seed: Seed): (h: Observed)
    ensures seed.FromRecord? ==> forall key | key in h :: h[key] >= 0.0
  {
    match seed
    case FromMap(entries) => entries
    case FromRecord(record) => map key | key in record && FiniteNonNegative(record[key]) :: record[key].value
  }

  /** A record seeds exactly its finite non-negative numbers, each as it is; a map is taken whole. */
  lemma SeedExact(seed: Seed, key: string)
    ensures match seed
      case FromMap(entries) => SeedOf(seed) == entries
      case FromRecord(record) =>
        && (key in SeedOf(seed) <==> key in record && record[key].Finite? && record[key].value >= 0.0)
        && (key in SeedOf(seed) ==> record[key] == Finite(SeedOf(seed)[key]))
  {
  }

  /** Seeded evidence is never forgotten: whatever happened since, a fallback charge is at least the seed of its key. */
  lemma UnknownIsNeverBelowSeed(price: PriceUsage, l: Ledger, seed: Seed, ops: seq<Op>, op: Op)
    requires l.highestObservedUsd == SeedOf(seed)
    requires var o := Apply(price, Run(price, l, ops).0, op).1; (o.Completed? || o.Voided?) && o.basis.Fallback?
    ensures var o := Apply(price, Run(price, l, ops).0, op).1; var key := RuntimeKey(o.reservation.runtime);
      match seed
      case FromMap(entries) => key in entries ==> entries[key] <= o.charge
      case FromRecord(record) => key in record && record[key].Finite? && record[key].value >= 0.0 ==> record[key].value <= o.charge
  {
    assert [] + ops == ops;
    HighestNeverDecreases(price, l, [], ops);
    FallbackIsHighest(price, Run(price, l, ops).0, op);
  }

  lemma FallbackIsHighest(price: PriceUsage, l: Ledger, op: Op)
    requires var o := Apply(price, l, op).1; (o.Completed? || o.Voided?) && o.basis.Fallback?
    ensures var o := Apply(price, l, op).1; var key := RuntimeKey(o.reservation.runtime);
      key in l.highestObservedUsd ==> l.highestObservedUsd[key] <= o.charge
  {
  }

  // ----- what the helpers decide

  /** Prices and evidence are kept by the runtime's id, else by its model; a runtime given by name is that model. */
  lemma KeyExact(id: string, model: string, other: Option<string>, pricing: Option<Pricing>)
    ensures RuntimeKey(Description(Some(id), other, pricing)) == id
    ensures RuntimeKey(Description(None, Some(model), pricing)) == model == RuntimeKey(Name(model))
    ensures RuntimeKey(Description(None, None, pricing)) == "unknown-runtime"
  {
  }

  /** A price is what the table answers for the runtime, when that is a finite non-negative number. */
  lemma PriceExact(price: PriceUsage, model: string, runtime: Runtime, usage: Option<Usage>, reported: Option<Number>)
    requires runtime.Description?
    ensures PricedCost(price, Name(model), usage, reported) == PricedCost(price, Description(None, Some(model), None), usage, reported)
    ensures var answer := price(runtime, usage, reported);
      PricedCost(price, runtime, usage, reported)
      == if answer.Some? && answer.value.Finite? && answer.value.value >= 0.0 then Some(answer.value.value) else None
  {
  }

  /** What an observed cost is worth as a charge: its highest value when that is positive, and nothing otherwise. */
  ghost predicate Observes(highest: Observed, key: string, usd: real)
  {
    key in highest && highest[key] == usd && usd > 0.0
  }

  /**
   * An estimate is the number the caller gives, when finite and not negative, and no other then;
   * without a number it is the price of the described usage, and without a price the observed cost.
   */
  lemma EstimateExact(price: PriceUsage, runtime: Runtime, estimate: Estimate, highest: Observed, usd: real)
    ensures EstimateFor(price, runtime, estimate, highest) == Some(usd) <==>
      match estimate
      case Amount(given) => given == Finite(usd) && usd >= 0.0
      case Described(usage, Some(given)) => given == Finite(usd) && usd >= 0.0
      case Described(usage, None) =>
        var priced := PricedCost(price, runtime, usage, None);
        if priced.Some? then priced.value == usd else Observes(highest, RuntimeKey(runtime), usd)
  {
  }

  /**
   * A start is admitted if and only if it has an estimate that leaves the committed amount below
   * the budget; it then reserves that estimate, for that runtime, and nothing else changes.
   */
  lemma StartExact(price: PriceUsage, l: Ledger, runtime: Runtime, estimate: Estimate, startedAt: string)
    ensures var usd := EstimateFor(price, runtime, estimate, l.highestObservedUsd);
      var (after, o) := Apply(price, l, Start(runtime, estimate, startedAt));
      && (o.Admitted? <==> usd.Some? && Committed(l) + usd.value < l.budgetUsd)
      && (o.Stopped? <==> usd.Some? && Committed(l) + usd.value >= l.budgetUsd)
      && (o == Failed(NoEstimate) <==> usd.None?)
      && (o.Admitted? ==>
          && o.reservation.runtime == runtime && o.reservation.estimateUsd == usd.value && o.reservation.startedAt == startedAt
          && after == l.(inFlight := l.inFlight + {o.reservation}, nextSerial := l.nextSerial + 1))
  {
  }

  /** A charge without a price: the highest observed cost of the key when that is positive, else the estimate. */
  lemma FallbackExact(highest: Observed, r: Reservation, usd: real)
    ensures FallbackCharge(highest, r) == usd <==>
      || Observes(highest, RuntimeKey(r.runtime), usd)
      || ((forall seen :: !Observes(highest, RuntimeKey(r.runtime), seen)) && usd == r.estimateUsd)
  {
    var key := RuntimeKey(r.runtime);
    if key in highest && highest[key] > 0.0 {
      assert Observes(highest, key, highest[key]);
    }
  }

  /**
   * What a settlement of an active reservation charges: its price; for a completion that says the
   * price is unknown, the number it states; and else the fallback, its own evidence counted in.
   */
  lemma ChargeExact(price: PriceUsage, l: Ledger, op: Op)
    requires (op.Complete? || op.Void?) && op.reservation in l.inFlight && IsSettlement(Apply(price, l, op).1)
    ensures var o := Apply(price, l, op).1;
      var priced := PricedCost(price, op.reservation.runtime, op.record.usage, op.record.costUsd);
      && o.reservation == op.reservation
      && if op.Complete? && op.record.costProvenance.SaidUnknown? && op.record.costUsd.Some? then
           op.record.costUsd == Some(Finite(o.charge)) && o.basis == Stated
         else if priced.Some? && !(op.Complete? && op.record.costProvenance.SaidUnknown?) then
           o.charge == priced.value && o.basis == Priced
         else
           o.charge == FallbackCharge(if op.Complete? then Observe(l, op.reservation, op.record).highestObservedUsd else l.highestObservedUsd, op.reservation)
           && o.basis == Fallback
  {
  }

  /** Carried evidence raises the highest cost of the completion's own key to at least itself, and no other. */
  lemma ObserveExact(l: Ledger, r: Reservation, record: Record, key: string)
    ensures var before, after := l.highestObservedUsd, Observe(l, r, record).highestObservedUsd;
      && Observe(l, r, record) == l.(highestObservedUsd := after)
      && (key != RuntimeKey(r.runtime) ==> (key in before <==> key in after) && (key in before ==> after[key] == before[key]))
      && (record.observedCostUsd.Some? && record.observedCostUsd.value.Finite? && record.observedCostUsd.value.value >= 0.0 ==>
          var usd, own := record.observedCostUsd.value.value, RuntimeKey(r.runtime);
          own in after && after[own] >= usd && (after[own] == usd || (own in before && after[own] == before[own])))
  {
  }

  // ----- the budget flag

  datatype Flag = Missing | Invalid | Given(usd: real)

  const FLAG := "--budget-usd"

  /** The value the argument at an index gives the flag: the next argument, or what follows the equals sign. */
  function FlagValue(argv: seq<string>, i: nat): Option<string>
    requires i < |argv|
  {
    if argv[i] == FLAG then if i + 1 < |argv| then Some(argv[i + 1]) else None
    else if FLAG + "=" <= argv[i] then Some(argv[i][|FLAG| + 1..])
    else None
  }

  /** What a value reads as; `number` is the reading of numbers in the modelled language. */
  function ReadFlag(number: string -> Number, value: string): Flag
  {
    if value == "" || !FiniteNonNegative(number(value)) then Invalid else Given(number(value).value)
  }

  function FlagBudget(number: string -> Number, argv: seq<string>, i: nat): (flag: Flag)
    requires i <= |argv|
    ensures flag.Given? ==> flag.usd >= 0.0
    decreases |argv| - i
  {
    if i == |argv| then Missing
    else if FlagValue(argv, i).Some? then ReadFlag(number, FlagValue(argv, i).value)
    else FlagBudget(number, argv, i + 1)
  }

  /** The first argument that gives the flag a value decides; without one the flag is missing. */
  lemma {:induction false} FirstFlagDecides(number: string -> Number, argv: seq<string>, i: nat)
    requires i <= |argv|
    ensures FlagBudget(number, argv, i).Missing? <==> forall k | i <= k < |argv| :: FlagValue(argv, k).None?
    ensures !FlagBudget(number, argv, i).Missing? ==> exists k | i <= k < |argv| ::
      && FlagValue(argv, k).Some? && FlagBudget(number, argv, i) == ReadFlag(number, FlagValue(argv, k).value)
      && forall j | i <= j < k :: FlagValue(argv, j).None?
    decreases |argv| - i
  {
    if i < |argv| && FlagValue(argv, i).None? {
      FirstFlagDecides(number, argv, i + 1);
    }
  }

  /** An argument gives the flag a value when it is the flag and another argument follows, or the flag with an equals sign. */
  lemma FlagExact(argv: seq<string>, i: nat, value: string)
    requires i < |argv|
    ensures FlagValue(argv, i) == Some(value) <==>
      || (argv[i] == "--budget-usd" && i + 1 < |argv| && argv[i + 1] == value)
      || argv[i] == "--budget-usd=" + value
  {
    if argv[i] == "--budget-usd=" + value {
      assert argv[i][|FLAG|] == '=' && argv[i][|FLAG| + 1..] == value;
      assert FLAG + "=" <= argv[i];
    }
    if FLAG + "=" <= argv[i] {
      assert argv[i] == FLAG + "=" + argv[i][|FLAG| + 1..];
    }
  }

  method BudgetFromArgs(number: string -> Number, argv: seq<string>) returns (flag: Flag)
    ensures flag == FlagBudget(number, argv, 0)
  {
    for index := 0 to |argv|
      invariant FlagBudget(number, argv, 0) == FlagBudget(number, argv, index)
    {
      var argument := argv[index];
      var value: Option<string> := None;
      if argument == FLAG {
        if index + 1 < |argv| {
          value := Some(argv[index + 1]);
        }
      } else if FLAG + "=" <= argument {
        value := Some(argument[|FLAG| + 1..]);
      }
      if value.Some? {
        if value.value == "" {
          return Invalid;
        }
        var budgetUsd := number(value.value);
        return if FiniteNonNegative(budgetUsd) then Given(budgetUsd.value) else Invalid;
      }
    }
    flag := Missing;
  }

  datatype Result = Result(ledger: Ledger, reservedUsd: real, overrunUsd: real)

  class StochasticBudget {
    const price: PriceUsage
    const budgetUsd: real
    var spendUsd: real
    var pricedSpendUsd: real
    var unknownSpendUsd: real
    var voidedSpendUsd: real
    var voidedInvocations: nat
    var refusedInvocations: nat
    var highestObservedUsd: Observed
    var inFlight: set<Reservation>
    var nextSerial: nat

    function Snapshot(): Ledger
      reads this
    {
      Ledger(budgetUsd, spendUsd, pricedSpendUsd, unknownSpendUsd, voidedSpendUsd, voidedInvocations, refusedInvocations,
             highestObservedUsd, inFlight, nextSerial)
    }

    constructor (price: PriceUsage, budgetUsd: real, seed: Seed)
      requires budgetUsd >= 0.0
      ensures Fresh(Snapshot()) && this.price == price
      ensures Snapshot().budgetUsd == budgetUsd && highestObservedUsd == SeedOf(seed)
    {
      this.price, this.budgetUsd := price, budgetUsd;
      spendUsd, pricedSpendUsd, unknownSpendUsd, voidedSpendUsd := 0.0, 0.0, 0.0, 0.0;
      voidedInvocations, refusedInvocations := 0, 0;
      highestObservedUsd := SeedOf(seed);
      inFlight, nextSerial := {}, 0;
    }

    /**
     * A missing, negative or non-finite budget is an error, not an unlimited allowance; and so is a
     * bad flag, even beside a good setting.
     */
    static method Create(price: PriceUsage, number: string -> Number, argv: seq<string>, setting: Option<Number>, seed: Seed)
      returns (b: Option<StochasticBudget>)
      ensures var flag := FlagBudget(number, argv, 0);
        b.Some? <==> !flag.Invalid? && if setting.Some? then FiniteNonNegative(setting.value) else flag.Given?
      ensures b.Some? ==> fresh(b.value) && Fresh(b.value.Snapshot()) && b.value.highestObservedUsd == SeedOf(seed)
      ensures b.Some? ==> b.value.budgetUsd == if setting.Some? then setting.value.value else FlagBudget(number, argv, 0).usd
    {
      var flag := BudgetFromArgs(number, argv);
      if flag.Invalid? {
        return None;
      }
      var budgetUsd := if setting.Some? then setting else if flag.Given? then Some(Finite(flag.usd)) else None;
      if budgetUsd.None? || !FiniteNonNegative(budgetUsd.value) {
        return None;
      }
      var budget := new StochasticBudget(price, budgetUsd.value.value, seed);
      b := Some(budget);
    }

    method Reserved() returns (total: real)
      ensures total == ReservedUsd(inFlight)
    {
      total := 0.0;
      var rest := inFlight;
      while rest != {}
        invariant rest <= inFlight
        invariant total + ReservedUsd(rest) == ReservedUsd(inFlight)
        decreases rest
      {
        var r :| r in rest;
        SumOverRemove((r: Reservation) => r.estimateUsd, rest, r);
        total := total + r.estimateUsd;
        rest := rest - {r};
      }
    }

    method StartInvocation(runtime: Runtime, estimate: Estimate, startedAt: string) returns (o: Outcome)
      modifies this
      ensures (Snapshot(), o) == StartStep(price, old(Snapshot()), runtime, estimate, startedAt)
    {
      var estimateUsd := EstimateFor(price, runtime, estimate, highestObservedUsd);
      if estimateUsd.None? {
        return Failed(NoEstimate);
      }
      var reservedUsd := Reserved();
      if spendUsd + voidedSpendUsd + reservedUsd + estimateUsd.value >= budgetUsd {
        return Stopped;
      }
      var reservation := Reservation(nextSerial, runtime, estimateUsd.value, startedAt);
      nextSerial := nextSerial + 1;
      inFlight := inFlight + {reservation};
      o := Admitted(reservation);
    }

    method RemoveReservation(r: Reservation) returns (active: bool)
      modifies this`inFlight
      ensures active == (r in old(inFlight)) && inFlight == old(inFlight) - {r}
    {
      active := r in inFlight;
      inFlight := inFlight - {r};
    }

    method CompleteInvocation(r: Reservation, record: Record) returns (o: Outcome)
      modifies this
      ensures (Snapshot(), o) == CompleteStep(price, old(Snapshot()), r, record)
    {
      var key := RuntimeKey(r.runtime);
      if record.observedCostUsd.Some? && FiniteNonNegative(record.observedCostUsd.value) {
        highestObservedUsd := Raise(highestObservedUsd, key, record.observedCostUsd.value.value);
      }
      var explicitlyUnknown := record.costProvenance.SaidUnknown?;
      var priced := CompletionPrice(price, r, record);
      var cost: Number;
      if explicitlyUnknown && record.costUsd.Some? {
        cost := record.costUsd.value;
      } else if priced.None? {
        cost := Finite(FallbackCharge(highestObservedUsd, r));
      } else {
        cost := Finite(priced.value);
      }
      if cost.NotFinite? || (priced.None? && cost.value <= 0.0) {
        return Failed(UnknownAsZero);
      }
      var active := RemoveReservation(r);
      if !active {
        assert inFlight == old(inFlight);
        return Failed(NotActive);
      }
      spendUsd := spendUsd + cost.value;
      if priced.None? {
        unknownSpendUsd := unknownSpendUsd + cost.value;
        o := Completed(r, cost.value, if explicitlyUnknown && record.costUsd.Some? then Stated else Fallback);
      } else {
        pricedSpendUsd := pricedSpendUsd + cost.value;
        highestObservedUsd := Raise(highestObservedUsd, key, cost.value);
        o := Completed(r, cost.value, Priced);
      }
    }

    method VoidInvocation(r: Reservation, record: Record) returns (o: Outcome)
      modifies this
      ensures (Snapshot(), o) == VoidStep(price, old(Snapshot()), r, record)
    {
      var priced := PricedCost(price, r.runtime, record.usage, record.costUsd);
      var voidedUsd := if priced.Some? then priced.value else FallbackCharge(highestObservedUsd, r);
      if priced.None? && voidedUsd <= 0.0 {
        return Failed(UnknownAsZero);
      }
      var active := RemoveReservation(r);
      if !active {
        assert inFlight == old(inFlight);
        return Failed(NotActive);
      }
      voidedSpendUsd := voidedSpendUsd + voidedUsd;
      voidedInvocations := voidedInvocations + 1;
      if priced.Some? {
        highestObservedUsd := Raise(highestObservedUsd, RuntimeKey(r.runtime), priced.value);
      }
      o := Voided(r, voidedUsd, if priced.Some? then Priced else Fallback);
    }

    method ReleaseRefused(r: Reservation) returns (o: Outcome)
      modifies this
      ensures (Snapshot(), o) == RefuseStep(old(Snapshot()), r)
    {
      var active := RemoveReservation(r);
      if !active {
        assert inFlight == old(inFlight);
        return Failed(NotActive);
      }
      refusedInvocations := refusedInvocations + 1;
      o := Released(r);
    }

    method Report() returns (result: Result)
      ensures result == Result(Snapshot(), ReservedUsd(inFlight), OverrunUsd(Snapshot()))
    {
      var reservedUsd := Reserved();
      result := Result(Snapshot(), reservedUsd, Max(0.0, spendUsd + voidedSpendUsd - budgetUsd));
    }
  }
}

/**
 * When the order of settlements of the ledger of evals/budget.mjs is visible.  A settlement leaves
 * evidence of what its runtime costs; only a fallback charge depends on the evidence left so far.
 */
module SettlementOrder {
  import opened Collections
  import opened Budget

  function Key(op: Op): string
    requires !op.Start?
  {
    RuntimeKey(op.reservation.runtime)
  }

  /** The evidence a completion carries; it is recorded even when the completion fails. */
  function Carried(op: Op): Option<real>
  {
    if op.Complete? && op.record.observedCostUsd.Some? && FiniteNonNegative(op.record.observedCostUsd.value)
    then Some(op.record.observedCostUsd.value.value) else None
  }

  function PriceOf(price: PriceUsage, op: Op): Option<real>
  {
    match op
    case Complete(r, record) => CompletionPrice(price, r, record)
    case Void(r, record) => PricedCost(price, r.runtime, record.usage, record.costUsd)
    case _ => None
  }

  /** Whether a settlement has neither a price nor a stated number to charge. */
  predicate ChargesFallback(price: PriceUsage, op: Op)
  {
    (op.Complete? || op.Void?) && PriceOf(price, op).None? && !IsStated(op)
  }

  function Larger(a: Option<real>, b: Option<real>): Option<real>
  {
    if a.None? then b else if b.None? then a else Some(Max(a.value, b.value))
  }

  /** All the evidence a settlement leaves: what it carries, and its price when it settles. */
  function Evidence(price: PriceUsage, op: Op, active: bool): Option<real>
  {
    Larger(Carried(op), if active then PriceOf(price, op) else None)
  }

  function RaiseBy(h: Observed, key: string, evidence: Option<real>): Observed
  {
    if evidence.Some? then Raise(h, key, evidence.value) else h
  }

  /** What a settlement is charged for want of a price, given the evidence before the call. */
  function FallbackOf(h: Observed, op: Op): real
    requires !op.Start?
  {
    FallbackCharge(RaiseBy(h, Key(op), Carried(op)), op.reservation)
  }

  // ----- a settlement as an addition

  datatype Effect = Effect(settles: bool, priced: real, unknown: real, voided: real, voids: nat, refusals: nat)

  const NOTHING := Effect(false, 0.0, 0.0, 0.0, 0, 0)

  function EffectOf(price: PriceUsage, op: Op, active: bool, fallback: real): Effect
  {
    var p := PriceOf(price, op);
    if !active then NOTHING else
    match op
    case Start(_, _, _) => NOTHING
    case Refuse(_) => Effect(true, 0.0, 0.0, 0.0, 0, 1)
    case Complete(_, record) =>
      if p.Some? then Effect(true, p.value, 0.0, 0.0, 0, 0) else
      var c := if IsStated(op) then record.costUsd.value else Finite(fallback);
      if c.NotFinite? || c.value <= 0.0 then NOTHING else Effect(true, 0.0, c.value, 0.0, 0, 0)
    case Void(_, _) =>
      var c := if p.Some? then p.value else fallback;
      if p.None? && c <= 0.0 then NOTHING else Effect(true, 0.0, 0.0, c, 1, 0)
  }

  function Add(l: Ledger, r: Reservation, e: Effect, evidence: Option<real>): Ledger
  {
    l.(inFlight := if e.settles then l.inFlight - {r} else l.inFlight,
       spendUsd := l.spendUsd + e.priced + e.unknown,
       pricedSpendUsd := l.pricedSpendUsd + e.priced,
       unknownSpendUsd := l.unknownSpendUsd + e.unknown,
       voidedSpendUsd := l.voidedSpendUsd + e.voided,
       voidedInvocations := l.voidedInvocations + e.voids,
       refusedInvocations := l.refusedInvocations + e.refusals,
       highestObservedUsd := RaiseBy(l.highestObservedUsd, RuntimeKey(r.runtime), evidence))
  }

  predicate Active(l: Ledger, op: Op)
    requires !op.Start?
  {
    op.reservation in l.inFlight
  }

  lemma RaiseTwice(h: Observed, key: string, a: Option<real>, b: Option<real>)
    ensures RaiseBy(RaiseBy(h, key, a), key, b) == RaiseBy(h, key, Larger(a, b))
  {
  }

  /** A settlement adds its effect and its evidence; only a fallback charge looks at the ledger's evidence. */
  lemma StepAdds(price: PriceUsage, l: Ledger, op: Op)
    requires !op.Start?
    ensures Apply(price, l, op).0
         == Add(l, op.reservation, EffectOf(price, op, Active(l, op), FallbackOf(l.highestObservedUsd, op)), Evidence(price, op, Active(l, op)))
  {
    match op
    case Complete(r, record) => CompletionAdds(price, l, r, record);
    case Void(_, _) =>
    case Refuse(_) =>
  }

  lemma CompletionAdds(price: PriceUsage, l: Ledger, r: Reservation, record: Record)
    ensures var op := Complete(r, record);
      CompleteStep(price, l, r, record).0
        == Add(l, r, EffectOf(price, op, Active(l, op), FallbackOf(l.highestObservedUsd, op)), Evidence(price, op, Active(l, op)))
  {
    var op := Complete(r, record);
    RaiseTwice(l.highestObservedUsd, Key(op), Carried(op), PriceOf(price, op));
    assert Observe(l, r, record) == l.(highestObservedUsd := RaiseBy(l.highestObservedUsd, Key(op), Carried(op)));
  }

  lemma RaiseCommutes(h: Observed, k1: string, e1: Option<real>, k2: string, e2: Option<real>)
    ensures RaiseBy(RaiseBy(h, k1, e1), k2, e2) == RaiseBy(RaiseBy(h, k2, e2), k1, e1)
  {
    assert RaiseBy(RaiseBy(h, k1, e1), k2, e2).Keys == RaiseBy(RaiseBy(h, k2, e2), k1, e1).Keys;
  }

  lemma AddCommutes(l: Ledger, r: Reservation, d: Effect, x: Option<real>, s: Reservation, e: Effect, y: Option<real>)
    ensures Add(Add(l, r, d, x), s, e, y) == Add(Add(l, s, e, y), r, d, x)
  {
    RaiseCommutes(l.highestObservedUsd, RuntimeKey(r.runtime), x, RuntimeKey(s.runtime), y);
    assert l.inFlight - {r} - {s} == l.inFlight - {s} - {r};
  }

  // ----- how evidence moves a fallback charge

  /** What an invocation is charged when `seen` is the highest observed cost and `estimate` was reserved. */
  function ChargeAt(seen: real, estimate: real): real { if seen > 0.0 then seen else estimate }

  function Seen(h: Observed, key: string): real { if key in h then h[key] else 0.0 }

  function SeenWith(seen: real, evidence: Option<real>): real { if evidence.Some? then Max(seen, evidence.value) else seen }

  lemma FallbackIsChargeAt(h: Observed, op: Op, key: string, evidence: Option<real>)
    requires !op.Start?
    ensures FallbackOf(h, op) == ChargeAt(SeenWith(Seen(h, Key(op)), Carried(op)), op.reservation.estimateUsd)
    ensures FallbackOf(RaiseBy(h, key, evidence), op)
      == if key == Key(op) then ChargeAt(SeenWith(SeenWith(Seen(h, key), evidence), Carried(op)), op.reservation.estimateUsd)
         else FallbackOf(h, op)
  {
  }

  /** Whether an active settlement is charged the same with and without more evidence. */
  predicate ChargedAlike(price: PriceUsage, h: Observed, a: Op, active: bool, key: string, evidence: Option<real>)
    requires !a.Start?
  {
    ChargesFallback(price, a) && active ==> FallbackOf(RaiseBy(h, key, evidence), a) == FallbackOf(h, a)
  }

  /** Two pieces of evidence that each leave a charge alone leave it alone together. */
  lemma ChargedAlikeTwice(price: PriceUsage, h: Observed, a: Op, active: bool, k1: string, e1: Option<real>, k2: string, e2: Option<real>)
    requires !a.Start? && ChargedAlike(price, h, a, active, k1, e1) && ChargedAlike(price, h, a, active, k2, e2)
    ensures ChargedAlike(price, RaiseBy(h, k1, e1), a, active, k2, e2)
  {
    FallbackIsChargeAt(h, a, k1, e1);
    FallbackIsChargeAt(h, a, k2, e2);
    FallbackIsChargeAt(RaiseBy(h, k1, e1), a, k2, e2);
  }

  /** Whether settling `b` first leaves the charge of `a` as it is: a caller can evaluate this before either call. */
  predicate Unaffected(price: PriceUsage, l: Ledger, a: Op, b: Op)
    requires !a.Start? && !b.Start?
  {
    ChargedAlike(price, l.highestObservedUsd, a, Active(l, a), Key(b), Evidence(price, b, Active(l, b)))
  }

  /** Of two settlements at most one can move the charge of the other. */
  lemma OneAffected(price: PriceUsage, l: Ledger, a: Op, b: Op)
    requires !a.Start? && !b.Start? && !Unaffected(price, l, a, b)
    ensures Unaffected(price, l, b, a)
    ensures FallbackOf(RaiseBy(l.highestObservedUsd, Key(b), Evidence(price, b, Active(l, b))), a) > 0.0
  {
    var h := l.highestObservedUsd;
    FallbackIsChargeAt(h, a, Key(b), Evidence(price, b, Active(l, b)));
    FallbackIsChargeAt(h, b, Key(a), Evidence(price, a, Active(l, a)));
  }

  // ----- two settlements

  lemma EffectFixed(price: PriceUsage, op: Op, active: bool, f: real, g: real)
    requires ChargesFallback(price, op) && active ==> f == g
    ensures EffectOf(price, op, active, f) == EffectOf(price, op, active, g)
  {
  }

  lemma EffectMoves(price: PriceUsage, op: Op, f: real, g: real)
    requires ChargesFallback(price, op) && f != g && g > 0.0
    ensures EffectOf(price, op, true, f).settles != EffectOf(price, op, true, g).settles
         || EffectOf(price, op, true, f).unknown != EffectOf(price, op, true, g).unknown
         || EffectOf(price, op, true, f).voided != EffectOf(price, op, true, g).voided
  {
  }

  function BothOrders(price: PriceUsage, l: Ledger, a: Op, b: Op): (r: (Ledger, Ledger))
    requires !a.Start? && !b.Start?
  {
    var h := l.highestObservedUsd;
    var x, y := Evidence(price, a, Active(l, a)), Evidence(price, b, Active(l, b));
    var h1, h2 := RaiseBy(h, Key(a), x), RaiseBy(h, Key(b), y);
    (Add(Add(l, a.reservation, EffectOf(price, a, Active(l, a), FallbackOf(h, a)), x), b.reservation, EffectOf(price, b, Active(l, b), FallbackOf(h1, b)), y),
     Add(Add(l, a.reservation, EffectOf(price, a, Active(l, a), FallbackOf(h2, a)), x), b.reservation, EffectOf(price, b, Active(l, b), FallbackOf(h, b)), y))
  }

  lemma BothOrdersAdd(price: PriceUsage, l: Ledger, a: Op, b: Op)
    requires !a.Start? && !b.Start? && a.reservation != b.reservation
    ensures Apply(price, Apply(price, l, a).0, b).0 == BothOrders(price, l, a, b).0
    ensures Apply(price, Apply(price, l, b).0, a).0 == BothOrders(price, l, a, b).1
  {
    StepAdds(price, l, a);
    StepAdds(price, l, b);
    StepAdds(price, Apply(price, l, a).0, b);
    StepAdds(price, Apply(price, l, b).0, a);
    var h := l.highestObservedUsd;
    var x, y := Evidence(price, a, Active(l, a)), Evidence(price, b, Active(l, b));
    AddCommutes(l, b.reservation, EffectOf(price, b, Active(l, b), FallbackOf(h, b)), y,
                a.reservation, EffectOf(price, a, Active(l, a), FallbackOf(RaiseBy(h, Key(b), y), a)), x);
  }

  lemma AddsDiffer(l: Ledger, r: Reservation, d: Effect, e: Effect, x: Option<real>, s: Reservation, f: Effect, y: Option<real>)
    requires r in l.inFlight && r != s
    requires d.settles != e.settles || d.unknown != e.unknown || d.voided != e.voided
    requires d.priced == e.priced
    ensures Add(Add(l, r, d, x), s, f, y) != Add(Add(l, r, e, x), s, f, y)
  {
    var one, two := Add(Add(l, r, d, x), s, f, y), Add(Add(l, r, e, x), s, f, y);
    assert r in one.inFlight <==> !d.settles;
    assert r in two.inFlight <==> !e.settles;
  }

  lemma AffectedDiffer(price: PriceUsage, l: Ledger, a: Op, b: Op)
    requires !a.Start? && !b.Start? && a.reservation != b.reservation && !Unaffected(price, l, a, b)
    ensures BothOrders(price, l, a, b).0 != BothOrders(price, l, a, b).1
  {
    OneAffected(price, l, a, b);
    var h := l.highestObservedUsd;
    var x, y := Evidence(price, a, Active(l, a)), Evidence(price, b, Active(l, b));
    var f, g := FallbackOf(h, a), FallbackOf(RaiseBy(h, Key(b), y), a);
    EffectFixed(price, b, Active(l, b), FallbackOf(h, b), FallbackOf(RaiseBy(h, Key(a), x), b));
    EffectMoves(price, a, f, g);
    AddsDiffer(l, a.reservation, EffectOf(price, a, true, f), EffectOf(price, a, true, g), x,
               b.reservation, EffectOf(price, b, Active(l, b), FallbackOf(h, b)), y);
  }

  /**
   * Two settlements of different reservations reach the same ledger in either order if and only if
   * neither leaves evidence that changes what the other is charged.
   */
  lemma SettlementsCommute(price: PriceUsage, l: Ledger, a: Op, b: Op)
    requires !a.Start? && !b.Start? && a.reservation != b.reservation
    ensures Apply(price, Apply(price, l, a).0, b).0 == Apply(price, Apply(price, l, b).0, a).0
      <==> Unaffected(price, l, a, b) && Unaffected(price, l, b, a)
  {
    BothOrdersAdd(price, l, a, b);
    if !Unaffected(price, l, a, b) {
      AffectedDiffer(price, l, a, b);
    } else if !Unaffected(price, l, b, a) {
      AffectedDiffer(price, l, b, a);
      BothOrdersAdd(price, l, b, a);
    } else {
      var h := l.highestObservedUsd;
      var x, y := Evidence(price, a, Active(l, a)), Evidence(price, b, Active(l, b));
      EffectFixed(price, a, Active(l, a), FallbackOf(h, a), FallbackOf(RaiseBy(h, Key(b), y), a));
      EffectFixed(price, b, Active(l, b), FallbackOf(h, b), FallbackOf(RaiseBy(h, Key(a), x), b));
    }
  }

  // ----- any number of settlements, in every order

  /** Settlements of different reservations. */
  ghost predicate Settlements(ops: seq<Op>)
  {
    && (forall op | op in ops :: !op.Start?)
    && (forall i, j | 0 <= i < j < |ops| :: ops[i] in ops && ops[j] in ops && ops[i].reservation != ops[j].reservation)
  }

  /** No settlement's evidence changes what another one is charged. */
  ghost predicate ChargesIndependent(price: PriceUsage, l: Ledger, ops: seq<Op>)
    requires Settlements(ops)
  {
    forall a, b | a in ops && b in ops && a != b :: Unaffected(price, l, a, b)
  }

  ghost predicate SameInEveryOrder(price: PriceUsage, l: Ledger, ops: seq<Op>)
  {
    forall other | multiset(other) == multiset(ops) :: Run(price, l, other).0 == Run(price, l, ops).0
  }

  /** What a settlement adds when its charge is worked out on the ledger `l`. */
  function FixedStep(price: PriceUsage, l: Ledger): (Ledger, Op) -> Ledger
  {
    (m: Ledger, op: Op) =>
      if op.Start? then m
      else Add(m, op.reservation, EffectOf(price, op, Active(l, op), FallbackOf(l.highestObservedUsd, op)), Evidence(price, op, Active(l, op)))
  }

  lemma FixedStepsCommute(price: PriceUsage, l: Ledger, ops: seq<Op>)
    ensures Commutes(FixedStep(price, l), ops)
  {
    var f := FixedStep(price, l);
    forall m, a, b | a in ops && b in ops ensures f(f(m, a), b) == f(f(m, b), a) {
      if !a.Start? && !b.Start? {
        AddCommutes(m, a.reservation, EffectOf(price, a, Active(l, a), FallbackOf(l.highestObservedUsd, a)), Evidence(price, a, Active(l, a)),
                    b.reservation, EffectOf(price, b, Active(l, b), FallbackOf(l.highestObservedUsd, b)), Evidence(price, b, Active(l, b)));
      }
    }
  }

  /** After some settlements, `a` is still as active and still charged as on the ledger `l`, with or without `b`. */
  predicate Steady(price: PriceUsage, l: Ledger, m: Ledger, a: Op, b: Op)
    requires !a.Start? && !b.Start?
  {
    && Active(m, a) == Active(l, a)
    && (ChargesFallback(price, a) && Active(l, a) ==> FallbackOf(m.highestObservedUsd, a) == FallbackOf(l.highestObservedUsd, a))
    && (a != b ==> ChargedAlike(price, m.highestObservedUsd, a, Active(l, a), Key(b), Evidence(price, b, Active(l, b))))
  }

  lemma StillSteady(price: PriceUsage, l: Ledger, m: Ledger, x: Op, a: Op, b: Op)
    requires !a.Start? && !b.Start? && !x.Start? && x.reservation != a.reservation
    requires Active(m, x) == Active(l, x) && Steady(price, l, m, a, x) && Steady(price, l, m, a, b)
    ensures Steady(price, l, Apply(price, m, x).0, a, b)
  {
    StepAdds(price, m, x);
    if a != b {
      ChargedAlikeTwice(price, m.highestObservedUsd, a, Active(l, a), Key(x), Evidence(price, x, Active(l, x)), Key(b), Evidence(price, b, Active(l, b)));
    }
  }

  ghost predicate RestSteady(price: PriceUsage, l: Ledger, m: Ledger, all: seq<Op>, done: seq<Op>)
    requires Settlements(all)
  {
    forall a, b | a in all && b in all && a !in done && b !in done :: Steady(price, l, m, a, b)
  }

  lemma ReservationsTell(all: seq<Op>, a: Op, b: Op)
    requires Settlements(all) && a in all && b in all && a != b
    ensures a.reservation != b.reservation
  {
  }

  lemma StepOfSteady(price: PriceUsage, l: Ledger, m: Ledger, x: Op)
    requires !x.Start? && Steady(price, l, m, x, x)
    ensures Apply(price, m, x).0 == FixedStep(price, l)(m, x)
  {
    StepAdds(price, m, x);
    EffectFixed(price, x, Active(l, x), FallbackOf(m.highestObservedUsd, x), FallbackOf(l.highestObservedUsd, x));
  }

  /** With independent charges a run adds what each settlement adds on the first ledger. */
  lemma {:induction false} RunIsFixed(price: PriceUsage, l: Ledger, all: seq<Op>, done: seq<Op>)
    requires Settlements(all) && Settlements(done) && ChargesIndependent(price, l, all) && forall op | op in done :: op in all
    ensures Run(price, l, done).0 == Fold(FixedStep(price, l), l, done)
    ensures RestSteady(price, l, Run(price, l, done).0, all, done)
    decreases |done|
  {
    if done == [] {
      forall a, b | a in all && b in all ensures Steady(price, l, l, a, b) {
        assert a != b ==> Unaffected(price, l, a, b);
      }
    } else {
      var n := |done| - 1;
      var front, x := done[..n], done[n];
      RunIsFixed(price, l, all, front);
      var m := Run(price, l, front).0;
      assert x !in front && x in all;
      assert Steady(price, l, m, x, x);
      StepOfSteady(price, l, m, x);
      forall a, b | a in all && b in all && a !in done && b !in done ensures Steady(price, l, Apply(price, m, x).0, a, b) {
        assert a !in front && b !in front && x in done;
        ReservationsTell(all, a, x);
        assert Steady(price, l, m, a, x) && Steady(price, l, m, a, b);
        StillSteady(price, l, m, x, a, b);
      }
    }
  }

  lemma SettlementsPermuted(ops: seq<Op>, other: seq<Op>)
    requires Settlements(ops) && multiset(ops) == multiset(other)
    ensures Settlements(other) && forall op :: op in ops <==> op in other
  {
    MembersOfPermuted(ops, other);
    PermutedDistinct(ops, other);
    forall i, j | 0 <= i < j < |other| ensures other[i] in other && other[j] in other && other[i].reservation != other[j].reservation {
      assert other[i] in ops && other[j] in ops;
      ReservationsTell(ops, other[i], other[j]);
    }
  }

  lemma IndependentOrder(price: PriceUsage, l: Ledger, ops: seq<Op>, other: seq<Op>)
    requires Settlements(ops) && ChargesIndependent(price, l, ops) && multiset(ops) == multiset(other)
    ensures Run(price, l, other).0 == Run(price, l, ops).0
  {
    SettlementsPermuted(ops, other);
    RunIsFixed(price, l, ops, ops);
    RunIsFixed(price, l, ops, other);
    FixedStepsCommute(price, l, ops);
    FoldPermuted(FixedStep(price, l), l, ops, other);
  }

  // ----- a difference is never undone by later settlements

  lemma {:induction false} RunAppend(price: PriceUsage, l: Ledger, ops: seq<Op>, more: seq<Op>)
    ensures Run(price, l, ops + more).0 == Run(price, Run(price, l, ops).0, more).0
    decreases |more|
  {
    if more == [] {
      assert ops + more == ops;
    } else {
      var all, n := ops + more, |more| - 1;
      RunAppend(price, l, ops, more[..n]);
      assert all[..|all| - 1] == ops + more[..n];
    }
  }

  /** Two ledgers with the same evidence on which the same settlements are active. */
  ghost predicate Alike(m: Ledger, n: Ledger, ops: seq<Op>)
    requires forall op | op in ops :: !op.Start?
  {
    m.highestObservedUsd == n.highestObservedUsd && forall op | op in ops :: Active(m, op) == Active(n, op)
  }

  lemma StepTells(price: PriceUsage, m: Ledger, n: Ledger, op: Op, ops: seq<Op>)
    requires (forall x | x in ops :: !x.Start?) && op in ops && Alike(m, n, ops)
    ensures Alike(Apply(price, m, op).0, Apply(price, n, op).0, ops)
    ensures Apply(price, m, op).0 == Apply(price, n, op).0 ==> m == n
  {
    StepAdds(price, m, op);
    StepAdds(price, n, op);
    var e := EffectOf(price, op, Active(m, op), FallbackOf(m.highestObservedUsd, op));
    if e.settles && m.inFlight - {op.reservation} == n.inFlight - {op.reservation} {
      assert forall r :: r in m.inFlight <==> r == op.reservation || r in m.inFlight - {op.reservation};
      assert m.inFlight == n.inFlight;
    }
  }

  lemma {:induction false} RunTells(price: PriceUsage, m: Ledger, n: Ledger, ops: seq<Op>, all: seq<Op>)
    requires (forall op | op in all :: !op.Start?) && (forall op | op in ops :: op in all) && Alike(m, n, all)
    ensures Alike(Run(price, m, ops).0, Run(price, n, ops).0, all)
    ensures Run(price, m, ops).0 == Run(price, n, ops).0 ==> m == n
    decreases |ops|
  {
    if ops != [] {
      var k := |ops| - 1;
      RunTells(price, m, n, ops[..k], all);
      StepTells(price, Run(price, m, ops[..k]).0, Run(price, n, ops[..k]).0, ops[k], all);
    }
  }

  lemma RunTwo(price: PriceUsage, l: Ledger, a: Op, b: Op)
    ensures Run(price, l, [a, b]).0 == Apply(price, Apply(price, l, a).0, b).0
  {
    assert [a, b][..1] == [a] && [a][..0] == [];
    assert Run(price, l, [a]).0 == Apply(price, l, a).0;
  }

  lemma PairAlike(price: PriceUsage, l: Ledger, a: Op, b: Op, rest: seq<Op>)
    requires !a.Start? && !b.Start? && (forall op | op in rest :: !op.Start?) && a.reservation != b.reservation
    requires forall op | op in rest :: op.reservation != a.reservation && op.reservation != b.reservation
    ensures Alike(Run(price, l, [a, b]).0, Run(price, l, [b, a]).0, rest)
  {
    RunTwo(price, l, a, b);
    RunTwo(price, l, b, a);
    BothOrdersAdd(price, l, a, b);
  }

  lemma RestOfPair(a: Op, b: Op, rest: seq<Op>)
    requires Settlements([a, b] + rest)
    ensures !a.Start? && !b.Start? && a.reservation != b.reservation
    ensures forall op | op in rest :: !op.Start?
    ensures forall op | op in rest :: op.reservation != a.reservation && op.reservation != b.reservation
  {
    var all := [a, b] + rest;
    assert all[0] == a && all[1] == b;
    forall op | op in rest ensures !op.Start? && op.reservation != a.reservation && op.reservation != b.reservation {
      var i :| 0 <= i < |rest| && rest[i] == op;
      assert all[i + 2] == op;
    }
  }

  /** When two settlements may come first in either order, they commute. */
  lemma PairInFront(price: PriceUsage, l: Ledger, a: Op, b: Op, rest: seq<Op>)
    requires Settlements([a, b] + rest) && !a.Start? && !b.Start?
    requires Run(price, l, [a, b] + rest).0 == Run(price, l, [b, a] + rest).0
    ensures Unaffected(price, l, a, b)
  {
    RestOfPair(a, b, rest);
    PairAlike(price, l, a, b, rest);
    RunAppend(price, l, [a, b], rest);
    RunAppend(price, l, [b, a], rest);
    RunTells(price, Run(price, l, [a, b]).0, Run(price, l, [b, a]).0, rest, rest);
    RunTwo(price, l, a, b);
    RunTwo(price, l, b, a);
    SettlementsCommute(price, l, a, b);
  }

  lemma EveryOrderIndependent(price: PriceUsage, l: Ledger, ops: seq<Op>, a: Op, b: Op)
    requires Settlements(ops) && SameInEveryOrder(price, l, ops) && a in ops && b in ops && a != b
    ensures Unaffected(price, l, a, b)
  {
    var rest := MoveTwoToFront(ops, a, b);
    SettlementsPermuted(ops, [a, b] + rest);
    PairInFront(price, l, a, b, rest);
  }

  /**
   * Settlements of different reservations end in the same totals, counters, reservations and
   * observed costs in every order if and only if no settlement leaves evidence that changes what
   * another one is charged.
   */
  lemma SettlementOrderExact(price: PriceUsage, l: Ledger, ops: seq<Op>)
    requires Settlements(ops)
    ensures SameInEveryOrder(price, l, ops) <==> ChargesIndependent(price, l, ops)
  {
    if ChargesIndependent(price, l, ops) {
      forall other | multiset(other) == multiset(ops) ensures Run(price, l, other).0 == Run(price, l, ops).0 {
        IndependentOrder(price, l, ops, other);
      }
    }
    if SameInEveryOrder(price, l, ops) {
      forall a, b | a in ops && b in ops && a != b ensures Unaffected(price, l, a, b) {
        EveryOrderIndependent(price, l, ops, a, b);
      }
    }
  }

  /** In particular when each is a refusal, has a price or states a number. */
  lemma KnownChargesInAnyOrder(price: PriceUsage, l: Ledger, ops: seq<Op>)
    requires Settlements(ops) && forall op | op in ops :: !ChargesFallback(price, op)
    ensures SameInEveryOrder(price, l, ops)
  {
    SettlementOrderExact(price, l, ops);
  }

  /**
   * The order can matter: two reservations of 1 dollar on a fresh allowance of 100; the one settles
   * without a price, the other at a price of 5.
   */
  lemma UnknownSettlementOrderMatters() returns (price: PriceUsage, l: Ledger, starts: seq<Op>, a: Op, b: Op)
    ensures Fresh(l) && forall op | op in starts :: op.Start?
    ensures a.Complete? && b.Complete? && a.reservation != b.reservation
    ensures Run(price, l, starts + [a, b]).0.spendUsd == 6.0 && Run(price, l, starts + [b, a]).0.spendUsd == 10.0
  {
    price := (runtime: Runtime, usage: Option<Usage>, reported: Option<Number>) => reported;
    l := Ledger(100.0, 0.0, 0.0, 0.0, 0.0, 0, 0, map[], {}, 0);
    var start := Start(Name("m"), Amount(Finite(1.0)), "");
    var r, s := Reservation(0, Name("m"), 1.0, ""), Reservation(1, Name("m"), 1.0, "");
    starts := [start, start];
    a := Complete(r, Record(None, None, Unstated, None));
    b := Complete(s, Record(None, Some(Finite(5.0)), Unstated, None));
    var m := l.(inFlight := {r, s}, nextSerial := 2);
    TwoStarts(price, l, start, r, s);
    RunAppend(price, l, starts, [a, b]);
    RunAppend(price, l, starts, [b, a]);
    RunTwo(price, m, a, b);
    RunTwo(price, m, b, a);
    TwoCompletions(price, m, r, s, a, b);
  }

  lemma TwoCompletions(price: PriceUsage, m: Ledger, r: Reservation, s: Reservation, a: Op, b: Op)
    requires r != s && r in m.inFlight && s in m.inFlight && m.highestObservedUsd == map[] && m.spendUsd == 0.0
    requires r.runtime == s.runtime == Name("m") && r.estimateUsd == 1.0
    requires a == Complete(r, Record(None, None, Unstated, None)) && b == Complete(s, Record(None, Some(Finite(5.0)), Unstated, None))
    requires PriceOf(price, a).None? && PriceOf(price, b) == Some(5.0)
    ensures Apply(price, Apply(price, m, a).0, b).0.spendUsd == 6.0
    ensures Apply(price, Apply(price, m, b).0, a).0.spendUsd == 10.0
  {
    BothOrdersAdd(price, m, a, b);
    FallbackIsChargeAt(m.highestObservedUsd, a, "m", Some(5.0));
  }

  lemma TwoStarts(price: PriceUsage, l: Ledger, start: Op, r: Reservation, s: Reservation)
    requires l == Ledger(100.0, 0.0, 0.0, 0.0, 0.0, 0, 0, map[], {}, 0) && start == Start(Name("m"), Amount(Finite(1.0)), "")
    requires r == Reservation(0, Name("m"), 1.0, "") && s == Reservation(1, Name("m"), 1.0, "")
    ensures Run(price, l, [start, start]).0 == l.(inFlight := {r, s}, nextSerial := 2)
  {
    RunTwo(price, l, start, start);
    assert {} + {r} == {r} && {r} + {s} == {r, s};
    assert ReservedUsd({}) == 0.0;
    var one := Apply(price, l, start).0;
    assert one == l.(inFlight := {r}, nextSerial := 1);
    SumOverRemove((r: Reservation) => r.estimateUsd, {r}, r);
    assert ReservedUsd({r}) == 1.0;
  }
}

/**
 * The takeover protocol of src/run/lock.mjs: one controller per run, held by a lock file that
 * contenders may take from a dead holder by renaming it aside.
 *
 * Processes interleave between any two file operations and may crash anywhere.  A process stands
 * for a pid with its start token, so a dead one never comes back.
 */
module ControllerLock {
  import opened Collections

  type Pid = nat

  /** What a lock file names: its writer, and when; `serial` stands for the start time of the call. */
  datatype Record = Record(holder: Pid, serial: nat)

  /** What stands under the lock's name; a file that does not parse is garbage. */
  datatype Entry = Garbage | Lock(record: Record)

  /** Where a process is in acquiring or releasing; `attempt` counts the takeovers tried. */
  datatype Phase =
    | Idle
    | Linking(record: Record, attempt: nat)
    | Reading(record: Record, attempt: nat)
    | Capturing(record: Record, attempt: nat)
    | Captured(record: Record, attempt: nat, aside: Entry)
    | Restoring(record: Record, attempt: nat, aside: Entry)
    | Holding(record: Record)
    | Releasing(record: Record)
    | Dead

  datatype State = State(phases: map<Pid, Phase>, path: Option<Entry>, next: nat)

  const TAKEOVER_ATTEMPTS: nat := 20

  predicate Alive(s: State, p: Pid) { p in s.phases && s.phases[p] != Dead }

  /** A lock is stale once its holder is proven dead, or when it cannot be read. */
  predicate Stale(s: State, e: Option<Entry>)
  {
    e.None? || e.value.Garbage? || !Alive(s, e.value.record.holder)
  }

  function Retry(r: Record, attempt: nat): Phase
  {
    if attempt + 1 < TAKEOVER_ATTEMPTS then Linking(r, attempt + 1) else Idle
  }

  datatype Action = Begin(pid: Pid) | Act(pid: Pid) | Crash(pid: Pid)

  /** The next file operation of a process: its new phase, and what then stands under the lock's name. */
  function Advance(s: State, p: Pid): (Phase, Option<Entry>)
    requires p in s.phases
  {
    match s.phases[p]
    case Linking(r, n) => if s.path.None? then (Holding(r), Some(Lock(r))) else (Reading(r, n), s.path)
    case Reading(r, n) => (if Stale(s, s.path) then Capturing(r, n) else Idle, s.path)
    case Capturing(r, n) => if s.path.None? then (Retry(r, n), s.path) else (Captured(r, n, s.path.value), None)
    case Captured(r, n, aside) => (if Stale(s, Some(aside)) then Retry(r, n) else Restoring(r, n, aside), s.path)
    case Restoring(r, n, aside) => (Retry(r, n), if s.path.None? then Some(aside) else s.path)
    case Holding(r) => (if s.path == Some(Lock(r)) then Releasing(r) else Idle, s.path)
    case Releasing(r) => (Idle, None)
    case phase => (phase, s.path)
  }

  function Step(s: State, a: Action): State
  {
    if a.pid !in s.phases then s else
    match a
    case Begin(p) =>
      if s.phases[p] == Idle then s.(phases := s.phases[p := Linking(Record(p, s.next), 0)], next := s.next + 1) else s
    case Act(p) =>
      var (phase, path) := Advance(s, p);
      s.(phases := s.phases[p := phase], path := path)
    case Crash(p) => s.(phases := s.phases[p := Dead])
  }

  function Run(s: State, actions: seq<Action>): State
    decreases |actions|
  {
    if actions == [] then s else Run(Step(s, actions[0]), actions[1..])
  }

  /** Nobody has begun, and a lock left behind is a dead process's. */
  predicate Initial(s: State)
  {
    (forall p | p in s.phases :: s.phases[p] == Idle) && Stale(s, s.path)
  }

  /** A process with a handle it has not released. */
  predicate Holds(s: State, p: Pid)
  {
    p in s.phases && (s.phases[p].Holding? || s.phases[p].Releasing?)
  }

  ghost predicate OneHolder(s: State)
  {
    forall p, q | Holds(s, p) && Holds(s, q) :: p == q
  }

  // ----- two processes

  /** A process writes its own name. */
  ghost predicate Signed(s: State)
  {
    forall p | p in s.phases && s.phases[p] != Idle && s.phases[p] != Dead :: s.phases[p].record.holder == p
  }

  /** A process that cannot install a lock of its own before it has put back `r` or died. */
  predicate MustRestore(phase: Phase, r: Record)
  {
    phase == Dead || ((phase.Captured? || phase.Restoring?) && phase.aside == Lock(r))
  }

  /** The holder's lock stands, or every other process is dead or about to put it back. */
  ghost predicate Guarded(s: State, p: Pid)
    requires Holds(s, p)
  {
    var r := s.phases[p].record;
    || s.path == Some(Lock(r))
    || (s.path.None? && forall q | q in s.phases && q != p :: MustRestore(s.phases[q], r))
  }

  ghost predicate Safe(s: State)
  {
    Signed(s) && forall p | Holds(s, p) :: Guarded(s, p)
  }

  lemma SafeMeansOne(s: State)
    requires Safe(s)
    ensures OneHolder(s)
  {
    forall p, q | Holds(s, p) && Holds(s, q) ensures p == q {
      assert Guarded(s, p) && Guarded(s, q);
      assert s.phases[p].record.holder == p && s.phases[q].record.holder == q;
    }
  }

  lemma SignedStep(s: State, a: Action)
    requires Signed(s)
    ensures Signed(Step(s, a))
  {
  }

  lemma OnlyOther(s: State, p: Pid, q: Pid, x: Pid)
    requires |s.phases.Keys| <= 2 && p in s.phases && q in s.phases && x in s.phases && p != q && x != p
    ensures x == q
  {
    if x != q {
      SubsetSize({p, q, x}, s.phases.Keys);
    }
  }

  /** A holder keeps its guard through any step of another process. */
  lemma OtherKeepsGuard(s: State, p: Pid, q: Pid, a: Action)
    requires Safe(s) && |s.phases.Keys| <= 2 && Holds(s, p) && q in s.phases && q != p && a.pid == q
    ensures Holds(Step(s, a), p) && Guarded(Step(s, a), p)
  {
    SafeMeansOne(s);
    var t, r := Step(s, a), s.phases[p].record;
    assert Guarded(s, p) && !Holds(s, q) && r.holder == p && Alive(s, p);
    if t.path != Some(Lock(r)) {
      forall x | x in t.phases && x != p ensures MustRestore(t.phases[x], r) {
        OnlyOther(s, p, q, x);
      }
    }
  }

  /** A process that holds after its own step is guarded. */
  lemma OwnStepGuards(s: State, p: Pid, a: Action)
    requires Safe(s) && a.pid == p && Holds(Step(s, a), p)
    ensures Guarded(Step(s, a), p)
  {
    if Holds(s, p) {
      assert Guarded(s, p);
    }
  }

  lemma SafeStep(s: State, a: Action)
    requires Safe(s) && |s.phases.Keys| <= 2
    ensures Safe(Step(s, a)) && Step(s, a).phases.Keys == s.phases.Keys
  {
    var t := Step(s, a);
    SignedStep(s, a);
    forall p | Holds(t, p) ensures Guarded(t, p) {
      if a.pid == p {
        OwnStepGuards(s, p, a);
      } else if a.pid in s.phases {
        OtherKeepsGuard(s, p, a.pid, a);
      } else {
        assert Guarded(s, p);
      }
    }
  }

  lemma {:induction false} RunSafe(s: State, actions: seq<Action>)
    requires Safe(s) && |s.phases.Keys| <= 2
    ensures Safe(Run(s, actions))
    decreases |actions|
  {
    if actions != [] {
      SafeStep(s, actions[0]);
      RunSafe(Step(s, actions[0]), actions[1..]);
    }
  }

  // ----- three processes

  lemma {:induction false} RunAppend(s: State, actions: seq<Action>, more: seq<Action>)
    ensures Run(s, actions + more) == Run(Run(s, actions), more)
    decreases |actions|
  {
    if actions == [] {
      assert actions + more == more;
    } else {
      assert (actions + more)[1..] == actions[1..] + more;
      RunAppend(Step(s, actions[0]), actions[1..], more);
    }
  }

  lemma RunOne(s: State, a: Action)
    ensures Run(s, [a]) == Step(s, a)
  {
    assert [a][1..] == [];
  }

  lemma RunTwo(s: State, a: Action, b: Action)
    ensures Run(s, [a, b]) == Step(Step(s, a), b)
  {
    assert [a, b][1..] == [b];
    RunOne(Step(s, a), b);
  }

  lemma RunFour(s: State, a: Action, b: Action, c: Action, d: Action)
    ensures Run(s, [a, b, c, d]) == Step(Step(Step(Step(s, a), b), c), d)
  {
    assert [a, b, c, d] == [a, b] + [c, d];
    RunAppend(s, [a, b], [c, d]);
    RunTwo(s, a, b);
    RunTwo(Step(Step(s, a), b), c, d);
  }

  /** `b` is about to rename what stood there when it looked; meanwhile `a` is about to install its lock. */
  ghost predicate Racing(s: State, t: State, a: Pid, b: Pid)
  {
    && a != b && a in t.phases && b in t.phases
    && t.path.None? && t.phases[a].Linking? && t.phases[b].Capturing?
    && t.phases.Keys == s.phases.Keys && forall x | x in s.phases && x != a && x != b :: t.phases[x] == s.phases[x]
  }

  /** From there the installed lock is renamed aside, and a third process installs its own in the gap. */
  lemma RaceIsLost(s: State, t: State, a: Pid, b: Pid, c: Pid) returns (actions: seq<Action>)
    requires Racing(s, t, a, b) && c in s.phases && s.phases[c] == Idle && c != a && c != b
    ensures Holds(Run(t, actions), a) && Holds(Run(t, actions), c)
  {
    actions := [Act(a), Act(b), Begin(c), Act(c)];
    RunFour(t, Act(a), Act(b), Begin(c), Act(c));
    var u := Step(Step(t, Act(a)), Act(b));
    assert u.phases[a].Holding? && u.path.None? && u.phases[c] == Idle;
    var v := Step(u, Begin(c));
    assert v.phases[a].Holding? && v.path.None? && v.phases[c].Linking?;
  }

  /** Two contenders judge a dead process's lock stale; one of them has taken it away. */
  lemma RaceForStaleLock(s: State, a: Pid, b: Pid) returns (actions: seq<Action>)
    requires Initial(s) && s.path.Some? && a != b && a in s.phases && b in s.phases
    ensures Racing(s, Run(s, actions), a, b)
  {
    var one, two := [Begin(a), Act(a), Act(a), Begin(b)], [Act(b), Act(b), Act(a), Act(a)];
    actions := one + two;
    RunAppend(s, one, two);
    RunFour(s, Begin(a), Act(a), Act(a), Begin(b));
    var t := Run(s, one);
    assert t.phases[a].Capturing? && t.phases[b].Linking? && t.path == s.path && Stale(t, t.path);
    RunFour(t, Act(b), Act(b), Act(a), Act(a));
  }

  /** A contender finds the lock held, and by the time it reads it, released; the holder begins again. */
  lemma RaceForReleasedLock(s: State, a: Pid, b: Pid) returns (actions: seq<Action>)
    requires Initial(s) && s.path.None? && a != b && a in s.phases && b in s.phases
    ensures Racing(s, Run(s, actions), a, b)
  {
    var one, two := [Begin(a), Act(a), Begin(b), Act(b)], [Act(a), Act(a), Act(b), Begin(a)];
    actions := one + two;
    RunAppend(s, one, two);
    RunFour(s, Begin(a), Act(a), Begin(b), Act(b));
    var t := Run(s, one);
    assert t.phases[a].Holding? && t.path == Some(Lock(t.phases[a].record)) && t.phases[b].Reading?;
    RunFour(t, Act(a), Act(a), Act(b), Begin(a));
  }

  /** In any case two processes can come to race. */
  lemma Race(s: State, a: Pid, b: Pid) returns (actions: seq<Action>)
    requires Initial(s) && a != b && a in s.phases && b in s.phases
    ensures Racing(s, Run(s, actions), a, b)
  {
    if s.path.Some? {
      actions := RaceForStaleLock(s, a, b);
    } else {
      actions := RaceForReleasedLock(s, a, b);
    }
  }

  lemma ThreeOf(pids: set<Pid>) returns (a: Pid, b: Pid, c: Pid)
    requires |pids| > 2
    ensures a in pids && b in pids && c in pids && a != b && b != c && a != c
  {
    a :| a in pids;
    var rest := pids - {a};
    assert |rest| > 1;
    b :| b in rest;
    assert |rest - {b}| > 0;
    c :| c in rest - {b};
  }

  lemma TwoHolders(s: State) returns (actions: seq<Action>)
    requires Initial(s) && |s.phases.Keys| > 2
    ensures !OneHolder(Run(s, actions))
  {
    var a, b, c := ThreeOf(s.phases.Keys);
    var race := Race(s, a, b);
    var end := RaceIsLost(s, Run(s, race), a, b, c);
    actions := race + end;
    RunAppend(s, race, end);
  }

  /**
   * One controller per run, exactly: every interleaving and every crash keeps at most one handle
   * if and only if at most two processes contend for the lock.
   */
  lemma OneHolderExact(s: State)
    requires Initial(s)
    ensures (forall actions :: OneHolder(Run(s, actions))) <==> |s.phases.Keys| <= 2
  {
    if |s.phases.Keys| <= 2 {
      forall actions ensures OneHolder(Run(s, actions)) {
        RunSafe(s, actions);
        SafeMeansOne(Run(s, actions));
      }
    } else {
      var actions := TwoHolders(s);
      assert !OneHolder(Run(s, actions));
    }
  }

  // ----- progress

  lemma RunSnoc(s: State, actions: seq<Action>, a: Action)
    ensures Run(s, actions + [a]) == Step(Run(s, actions), a)
  {
    RunAppend(s, actions, [a]);
    RunOne(Run(s, actions), a);
  }

  /** With nothing under the name, a contender that is left alone installs its lock at once. */
  lemma FreeLockIsTaken(s: State, p: Pid)
    requires p in s.phases && s.phases[p] == Idle && s.path.None?
    ensures var t := Run(s, [Begin(p), Act(p)]); Holds(t, p) && t.path == Some(Lock(Record(p, s.next)))
  {
    RunTwo(s, Begin(p), Act(p));
  }

  /** A dead process's lock, or an unreadable one, is taken over: read, renamed aside, discarded and replaced. */
  lemma StaleLockIsTakenOver(s: State, p: Pid)
    requires p in s.phases && s.phases[p] == Idle && s.path.Some? && Stale(s, s.path)
    ensures var t := Run(s, [Begin(p), Act(p), Act(p), Act(p)] + [Act(p), Act(p)]); Holds(t, p) && t.path == Some(Lock(Record(p, s.next)))
  {
    RunAppend(s, [Begin(p), Act(p), Act(p), Act(p)], [Act(p), Act(p)]);
    RunFour(s, Begin(p), Act(p), Act(p), Act(p));
    var t := Run(s, [Begin(p), Act(p), Act(p), Act(p)]);
    assert t.phases[p] == Captured(Record(p, s.next), 0, s.path.value) && t.path.None?;
    RunTwo(t, Act(p), Act(p));
  }

  /** A lock is stale exactly when there is none, it cannot be read, or its holder is no longer running. */
  lemma StaleExact(s: State, e: Entry)
    ensures Stale(s, None)
    ensures Stale(s, Some(e)) <==> e.Garbage? || e.record.holder !in s.phases || s.phases[e.record.holder] == Dead
  {
  }

  /** So a holder that crashes is replaced by the next contender. */
  lemma CrashedHolderIsReplaced(s: State, p: Pid, q: Pid)
    requires Holds(s, p) && s.path == Some(Lock(Record(p, s.phases[p].record.serial))) && q in s.phases && s.phases[q] == Idle
    ensures var t := Run(Step(s, Crash(p)), [Begin(q), Act(q), Act(q), Act(q)] + [Act(q), Act(q)]);
      Holds(t, q) && !Holds(t, p) && t.path == Some(Lock(Record(q, s.next)))
  {
    StaleLockIsTakenOver(Step(s, Crash(p)), q);
    OthersStay(Step(s, Crash(p)), q, [Begin(q), Act(q), Act(q), Act(q)] + [Act(q), Act(q)], p);
  }

  /** A process is left as it is by the steps of another. */
  lemma {:induction false} OthersStay(s: State, q: Pid, actions: seq<Action>, p: Pid)
    requires p != q && p in s.phases && forall a | a in actions :: a.pid == q
    ensures p in Run(s, actions).phases && Run(s, actions).phases[p] == s.phases[p]
    decreases |actions|
  {
    if actions != [] {
      assert actions[0] in actions;
      forall a | a in actions[1..] ensures a.pid == q {
        assert a in actions;
      }
      OthersStay(Step(s, actions[0]), q, actions[1..], p);
    }
  }

  /** A live process's lock is left alone, and the contender gives up. */
  lemma LiveLockIsRespected(s: State, p: Pid)
    requires p in s.phases && s.phases[p] == Idle && !Stale(s, s.path)
    ensures var t := Run(s, [Begin(p), Act(p)] + [Act(p)]); p in t.phases && t.phases[p] == Idle && t.path == s.path
  {
    RunAppend(s, [Begin(p), Act(p)], [Act(p)]);
    RunTwo(s, Begin(p), Act(p));
    RunOne(Run(s, [Begin(p), Act(p)]), Act(p));
  }

  /** Releasing removes the holder's own lock, and leaves alone whatever else stands under the name. */
  lemma ReleaseExact(s: State, p: Pid)
    requires p in s.phases && s.phases[p].Holding?
    ensures Asserts(s, p) ==> var t := Run(s, [Act(p), Act(p)]); p in t.phases && t.phases[p] == Idle && t.path.None?
    ensures !Asserts(s, p) ==> var t := Run(s, [Act(p)]); p in t.phases && t.phases[p] == Idle && t.path == s.path
  {
    RunTwo(s, Act(p), Act(p));
    RunOne(s, Act(p));
  }

  predicate Contends(phase: Phase)
  {
    phase.Linking? || phase.Reading? || phase.Capturing? || phase.Captured? || phase.Restoring?
  }

  /** The steps that end a takeover: nothing left to rename, a stale lock discarded, or a live one put back or lost. */
  predicate EndsTakeover(s: State, a: Action, p: Pid)
  {
    && a == Act(p) && p in s.phases
    && match s.phases[p]
       case Capturing(_, _) => s.path.None?
       case Captured(_, _, aside) => aside.Garbage? || !Alive(s, aside.record.holder)
       case Restoring(_, _, _) => true
       case _ => false
  }

  /** How many takeovers a process has ended since it began. */
  function Takeovers(s: State, actions: seq<Action>, p: Pid): nat
    decreases |actions|
  {
    if actions == [] then 0 else
    var n := |actions| - 1;
    var before, a := Run(s, actions[..n]), actions[n];
    if a == Begin(p) && p in before.phases && before.phases[p] == Idle then 0
    else Takeovers(s, actions[..n], p) + if EndsTakeover(before, a, p) then 1 else 0
  }

  lemma StepCounts(t: State, a: Action, p: Pid)
    requires p in t.phases
    ensures Step(t, a).phases.Keys == t.phases.Keys
    ensures var x, y := t.phases[p], Step(t, a).phases[p];
      Contends(y) ==>
        if a == Begin(p) && x == Idle then y.attempt == 0
        else Contends(x) && y.attempt == x.attempt + (if EndsTakeover(t, a, p) then 1 else 0) && (x.attempt < 20 ==> y.attempt < 20)
  {
  }

  /** A contender's attempt counts the takeovers it has ended, always fewer than twenty. */
  lemma {:induction false} AttemptsAreTakeovers(s: State, actions: seq<Action>, p: Pid)
    requires Initial(s) && p in s.phases
    ensures p in Run(s, actions).phases
    ensures var phase := Run(s, actions).phases[p];
      Contends(phase) ==> phase.attempt == Takeovers(s, actions, p) < 20
    decreases |actions|
  {
    if actions != [] {
      var n := |actions| - 1;
      AttemptsAreTakeovers(s, actions[..n], p);
      assert actions == actions[..n] + [actions[n]];
      RunSnoc(s, actions[..n], actions[n]);
      StepCounts(Run(s, actions[..n]), actions[n], p);
    }
  }

  /**
   * When a call gives up: a contender's step leaves it without a handle, outside the call, exactly
   * when it reads the lock of a live process or ends its twentieth takeover.
   */
  lemma GivesUpExact(s: State, actions: seq<Action>, p: Pid)
    requires Initial(s) && p in s.phases && p in Run(s, actions).phases && Contends(Run(s, actions).phases[p])
    ensures var t := Run(s, actions);
      Step(t, Act(p)).phases[p] == Idle <==>
        || (t.phases[p].Reading? && t.path.Some? && t.path.value.Lock? && Alive(t, t.path.value.record.holder))
        || (EndsTakeover(t, Act(p), p) && Takeovers(s, actions, p) == 19)
  {
    AttemptsAreTakeovers(s, actions, p);
  }

  /** And when it gets the lock: exactly when it links while nothing stands under the name. */
  lemma GetsLockExact(t: State, p: Pid)
    requires p in t.phases && Contends(t.phases[p])
    ensures Holds(Step(t, Act(p)), p) <==> t.phases[p].Linking? && t.path.None?
    ensures Holds(Step(t, Act(p)), p) ==> Asserts(Step(t, Act(p)), p)
  {
  }

  // ----- any number of processes

  /**
   * A second handle appears exactly when a process installs its lock while nothing stands under the
   * name, although another process holds: its lock was renamed aside or lost.
   */
  lemma SecondHolderExact(s: State, a: Action)
    requires OneHolder(s)
    ensures !OneHolder(Step(s, a)) <==>
      && a.Act? && a.pid in s.phases && s.phases[a.pid].Linking? && s.path.None?
      && exists q :: q != a.pid && Holds(s, q)
  {
    var t := Step(s, a);
    if !OneHolder(t) {
      var p, q :| Holds(t, p) && Holds(t, q) && p != q;
      assert Holds(s, p) || p == a.pid;
      assert Holds(s, q) || q == a.pid;
    }
    if a.Act? && a.pid in s.phases && s.phases[a.pid].Linking? && s.path.None? {
      if q :| q != a.pid && Holds(s, q) {
        assert Holds(t, a.pid) && Holds(t, q);
      }
    }
  }

  /** A holder whose lock stands under the name: its `assert` passes. */
  predicate Asserts(s: State, p: Pid)
  {
    Holds(s, p) && s.path == Some(Lock(s.phases[p].record))
  }

  lemma {:induction false} RunSigned(s: State, actions: seq<Action>)
    requires Signed(s)
    ensures Signed(Run(s, actions))
    decreases |actions|
  {
    if actions != [] {
      SignedStep(s, actions[0]);
      RunSigned(Step(s, actions[0]), actions[1..]);
    }
  }

  /** Of several handles at most one passes its `assert`, with any number of processes and crashes. */
  lemma OneAsserts(s: State, actions: seq<Action>, p: Pid, q: Pid)
    requires Initial(s) && Asserts(Run(s, actions), p) && Asserts(Run(s, actions), q)
    ensures p == q
  {
    RunSigned(s, actions);
    var t := Run(s, actions);
    assert t.phases[p].record.holder == p && t.phases[q].record.holder == q;
  }

  // ----- a lock nobody holds

  /** A lock of a live process that does not hold it, with nobody about to rename it or to release. */
  ghost predicate Orphaned(s: State, r: Record)
  {
    && s.path == Some(Lock(r)) && Alive(s, r.holder)
    && forall p | p in s.phases :: s.phases[p].Idle? || s.phases[p].Linking? || s.phases[p].Reading? || s.phases[p].Dead?
  }

  lemma OrphanStays(s: State, a: Action, r: Record)
    requires Orphaned(s, r) && a != Crash(r.holder)
    ensures Orphaned(Step(s, a), r)
  {
  }

  /** Such a lock blocks every process, its writer included, for as long as the writer lives. */
  lemma {:induction false} OrphanBlocksAll(s: State, actions: seq<Action>, r: Record, p: Pid)
    requires Orphaned(s, r) && Crash(r.holder) !in actions
    ensures Orphaned(Run(s, actions), r) && !Holds(Run(s, actions), p)
    decreases |actions|
  {
    if actions != [] {
      assert actions[0] in actions;
      OrphanStays(s, actions[0], r);
      forall a | a in actions[1..] ensures a in actions {}
      OrphanBlocksAll(Step(s, actions[0]), actions[1..], r, p);
    }
  }

  lemma RaceOrphans(s: State, t: State, a: Pid, b: Pid) returns (actions: seq<Action>)
    requires Initial(s) && Racing(s, t, a, b) && Signed(t)
    ensures Orphaned(Run(t, actions), t.phases[a].record)
  {
    var r := t.phases[a].record;
    actions := [Act(a), Act(b), Act(a), Act(b)] + [Act(b)];
    RunAppend(t, [Act(a), Act(b), Act(a), Act(b)], [Act(b)]);
    RunFour(t, Act(a), Act(b), Act(a), Act(b));
    var u := Step(Step(t, Act(a)), Act(b));
    assert u.phases[a] == Holding(r) && u.path.None? && u.phases[b].Captured? && u.phases[b].aside == Lock(r);
    var v := Step(Step(u, Act(a)), Act(b));
    assert v.phases[a] == Idle && v.phases[b].Restoring? && v.phases[b].aside == Lock(r) && v.path.None?;
    RunOne(v, Act(b));
  }

  /** It can arise with two processes: a lock that was renamed aside is put back after its holder released it. */
  lemma OrphanArises(s: State, a: Pid, b: Pid) returns (actions: seq<Action>, r: Record)
    requires Initial(s) && a != b && a in s.phases && b in s.phases
    ensures Orphaned(Run(s, actions), r) && r.holder == a
  {
    var race := Race(s, a, b);
    RunSigned(s, race);
    var t := Run(s, race);
    var end := RaceOrphans(s, t, a, b);
    actions, r := race + end, t.phases[a].record;
    RunAppend(s, race, end);
  }
}

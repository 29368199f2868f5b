/** scripts/deploy/faultinject.py: certifying one fault case. The case breaks the mesh on
    purpose, so it must tear down on every exit path, including a signal that arrives in
    the middle. A run is any sequence of events the cluster, the clock and the operator
    may produce; events the code is not waiting for are ignored. */
module Certifier {
  import opened Mesh
  import opened Lists

  datatype Tier = RBAC | HOST_ROOT | NEGATIVE

  datatype Case = Case(tier: Tier, expectedSignals: seq<Signal>, expectedOutcome: Outcome, skip: bool,
                       budget: real, settle: real)

  datatype Verdict = PASS | FAIL | SKIP

  /** How a teardown went: it worked, or it raised; the code looks at the exception's text,
      which may be empty. */
  datatype How = Worked | Broke | BrokeSilently

  /** What a seam call or the operator does next. */
  datatype Event =
    | Diagnosed(d: Diagnosis)
    | Injected(ok: bool)
    | Clock(now: real)
    | Evaluated(world: World, available: bool, max: int)
    | Journal(fired: bool)
    | Teardown(how: How)
    | Interrupt(how: How)   // SIGINT/SIGTERM, and how the handler's own teardown goes
    | SeamRaised

  /** The call the code is waiting for. */
  datatype Pc =
    | Pre | Inject
    | Settle(deadline: Option<real>) | SettleArm | SettleCheck(due: real)
    | Arm | Evaluate(start: real) | Elapsed(start: real, r: GateResult)
    | ReadJournal(start: real, r: GateResult) | Scaffold(start: real) | Remaining(start: real)
    | Recover(start: real, left: real, deadline: Option<real>) | RecoverArm(start: real, left: real)
    | RecoverCheck(start: real, left: real, due: real) | Final(start: real, healthy: bool)
    | Unwind | Done

  datatype State = State(pc: Pc, verdict: Verdict, restored: bool, teardownFailed: bool, elapsed: real,
                         trace: seq<Event>)

  predicate Landed(c: Case, d: Diagnosis) { exists s :: s in c.expectedSignals && s in d }

  /** At least one attempt engaged the host-root tier. */
  predicate HostRootSelected(r: GateResult) {
    exists i :: 0 <= i < |r.attempts| &&
        (r.attempts[i].action == HostResettle || r.attempts[i].action == HostResettleTimeout)
  }

  /** A host-root scaffold case is judged by the audited chain, not by the gate's outcome. */
  predicate ScaffoldCase(c: Case) { c.tier == HOST_ROOT && c.expectedOutcome == HEALED }

  ghost function Init(c: Case): State {
    State(if c.skip then Done else Pre, if c.skip then SKIP else FAIL, false, false, 0.0, [])
  }

  /** Between entering the ExitStack and leaving the signal-armed block. */
  predicate InBlock(pc: Pc) { !pc.Pre? && !pc.Unwind? && !pc.Done? }

  /** Leaving the block: the ExitStack restores unless that was already done. */
  ghost function Leave(s: State, v: Verdict): State {
    s.(verdict := v, pc := if s.restored then Done else Unwind)
  }

  ghost function Log(s: State, e: Event): State { s.(trace := s.trace + [e]) }

  /** `_do_restore` when the mesh is not yet restored. */
  ghost function Restore(s: State, how: How): State {
    Log(s, Teardown(how)).(restored := how == Worked, teardownFailed := s.teardownFailed || how != Worked)
  }

  ghost function OnInterrupt(s: State, how: How): State {
    var hit := Log(s, Interrupt(how));
    Leave(if s.restored then hit else Restore(hit, how), s.verdict)
  }

  ghost function OnDiagnosed(c: Case, s: State, d: Diagnosis): State {
    match s.pc
    case Pre => if Healthy(d) then s.(pc := Inject) else s.(pc := Done)
    case Settle(deadline) =>
      s.(pc := if Landed(c, d) then Arm else if deadline.None? then SettleArm else SettleCheck(deadline.value))
    case Recover(start, left, deadline) =>
      s.(pc := if Healthy(d) then Final(start, true)
               else if deadline.None? then RecoverArm(start, left) else RecoverCheck(start, left, deadline.value))
    case _ => s
  }

  ghost function OnClock(c: Case, s: State, now: real): State {
    match s.pc
    case SettleArm => s.(pc := SettleCheck(now + c.settle))
    case SettleCheck(due) => if now >= due then Leave(s, FAIL) else s.(pc := Settle(Some(due)))
    case Arm => s.(pc := Evaluate(now))
    case Elapsed(start, r) =>
      Leave(s.(elapsed := now - start),
            if now - start <= c.budget && r.outcome == c.expectedOutcome then PASS else FAIL)
    case Remaining(start) =>
      s.(pc := Recover(start, if c.budget - (now - start) < 0.0 then 0.0 else c.budget - (now - start), None))
    case RecoverArm(start, left) => s.(pc := RecoverCheck(start, left, now + left))
    case RecoverCheck(start, left, due) =>
      s.(pc := if now >= due then Final(start, false) else Recover(start, left, Some(due)))
    case Final(start, healthy) => Leave(s.(elapsed := now - start), if healthy then PASS else FAIL)
    case _ => s
  }

  ghost function OnEvaluated(c: Case, s: State, r: GateResult): State
    requires s.pc.Evaluate?
  {
    if !ScaffoldCase(c) then s.(pc := Elapsed(s.pc.start, r))
    else if HostRootSelected(r) then s.(pc := ReadJournal(s.pc.start, r))
    else Leave(s, FAIL)
  }

  /** Is the code waiting for this event? */
  predicate Waiting(pc: Pc, e: Event) {
    match e
    case Diagnosed(_) => pc.Pre? || pc.Settle? || pc.Recover?
    case Injected(_) => pc.Inject?
    case Clock(_) =>
      || pc.SettleArm? || pc.SettleCheck? || pc.Arm? || pc.Elapsed?
      || pc.Remaining? || pc.RecoverArm? || pc.RecoverCheck? || pc.Final?
    case Evaluated(_, _, _) => pc.Evaluate?
    case Journal(_) => pc.ReadJournal?
    case Teardown(_) => pc.Scaffold? || pc.Unwind?
    case Interrupt(_) => InBlock(pc)
    case SeamRaised => InBlock(pc)
  }

  /** One event. SeamRaised is any exception out of a seam call: the case fails. */
  ghost function Next(c: Case, s: State, e: Event): State {
    if !Waiting(s.pc, e) then s
    else
      match e
      case Diagnosed(d) => OnDiagnosed(c, Log(s, e), d)
      case Injected(ok) => if ok then Log(s, e).(pc := Settle(None)) else Leave(Log(s, e), FAIL)
      case Clock(now) => OnClock(c, Log(s, e), now)
      case Evaluated(w, available, max) => OnEvaluated(c, Log(s, e), Gate(w, available, max))
      case Journal(fired) => if fired then Log(s, e).(pc := Scaffold(s.pc.start)) else Leave(Log(s, e), FAIL)
      case Teardown(how) =>
        var t := Restore(s, how);
        if s.pc.Unwind? then t.(pc := Done)
        else if how == Broke then Leave(t, FAIL)
        else t.(pc := Remaining(s.pc.start))
      case Interrupt(how) => OnInterrupt(s, how)
      case SeamRaised => Leave(Log(s, e), FAIL)
  }

  ghost function Run(c: Case, events: seq<Event>): State
    decreases |events|
  {
    if events == [] then Init(c)
    else Next(c, Run(c, events[..|events| - 1]), events[|events| - 1])
  }

  // -------------------------------------------------------- teardown discipline

  /** A successful teardown is the last one, and `restored` says whether there was one. */
  ghost predicate TeardownsInOrder(s: State) {
    && (s.restored <==> exists i :: 0 <= i < |s.trace| && s.trace[i] == Teardown(Worked))
    && forall i, j :: 0 <= i < j < |s.trace| && s.trace[j].Teardown? ==> s.trace[i] != Teardown(Worked)
  }

  /** The trace opens with the pre-diagnosis; an injection can only be its second event and
      then that diagnosis was healthy. */
  ghost predicate Opening(c: Case, s: State) {
    && (s.trace == [] <==> s.pc.Pre? || c.skip)
    && (s.trace != [] ==> s.trace[0].Diagnosed?)
    && (|s.trace| > 1 || InBlock(s.pc) || s.pc.Unwind? ==> s.trace != [] && Healthy(s.trace[0].d))
    && (forall i :: 0 <= i < |s.trace| && s.trace[i].Injected? ==> i == 1)
    && (|s.trace| == 1 ==> s.pc.Inject? || s.pc.Done?)
    && (s.pc.Inject? ==> |s.trace| == 1)
  }

  /** Once the block was entered, the run ends only with a teardown behind it. */
  ghost predicate EndsTornDown(s: State) {
    s.pc.Done? && |s.trace| > 1 ==> exists j :: 2 <= j < |s.trace| && s.trace[j].Teardown?
  }

  ghost predicate Discipline(c: Case, s: State) {
    && TeardownsInOrder(s) && Opening(c, s) && EndsTornDown(s)
    && (s.restored ==> AfterScaffold(s.pc) || s.pc.Done?)
    && (c.skip ==> s == Init(c))
  }

  /** The waiting points of the host-root case once its scaffold is gone. */
  predicate AfterScaffold(pc: Pc) { pc.Remaining? || pc.Recover? || pc.RecoverArm? || pc.RecoverCheck? || pc.Final? }

  // ------------------------------------------------------ what a PASS stands on

  ghost predicate SignalLanded(c: Case, trace: seq<Event>) {
    exists i :: 1 < i < |trace| && trace[i].Diagnosed? && Landed(c, trace[i].d)
  }

  /** `r` is the result of a gate evaluation of this run. */
  ghost predicate GateResultOf(trace: seq<Event>, r: GateResult) {
    exists i :: 0 <= i < |trace| && trace[i].Evaluated? && r == Gate(trace[i].world, trace[i].available, trace[i].max)
  }

  /** The gate was evaluated between two readings of the clock, with result `r`. */
  ghost predicate MeasuredAt(trace: seq<Event>, i: nat, r: GateResult) {
    && i + 2 < |trace| && trace[i].Clock? && trace[i + 1].Evaluated? && trace[i + 2].Clock?
    && r == Gate(trace[i + 1].world, trace[i + 1].available, trace[i + 1].max)
  }

  /** Criterion of the RBAC and negative-control cases, from the trace alone: the declared
      outcome, and no more than the budget between the two readings. */
  ghost predicate OutcomeMet(c: Case, s: State, r: GateResult) {
    && r.outcome == c.expectedOutcome
    && exists i: nat :: MeasuredAt(s.trace, i, r) && s.trace[i + 2].now - s.trace[i].now <= c.budget
  }

  /** The last events are the reading `start` and an evaluation with result `r`. */
  ghost predicate EndsEvaluated(trace: seq<Event>, start: real, r: GateResult) {
    var n := |trace|;
    && n >= 2 && trace[n - 2] == Clock(start) && trace[n - 1].Evaluated?
    && r == Gate(trace[n - 1].world, trace[n - 1].available, trace[n - 1].max)
  }

  /** The audited host-root chain: the tier was engaged and the root unit's journal shows it. */
  ghost predicate ChainProven(trace: seq<Event>) {
    && (exists r :: GateResultOf(trace, r) && HostRootSelected(r))
    && (exists i :: 0 <= i < |trace| && trace[i] == Journal(true))
  }

  /** A teardown of the scaffold after which the case goes on: a failure stops it only by
      its text. */
  predicate LetThrough(e: Event) { e.Teardown? && e.how != Broke }

  ghost predicate ScaffoldTorn(trace: seq<Event>) { exists i :: 0 <= i < |trace| && LetThrough(trace[i]) }

  ghost predicate HealthySince(trace: seq<Event>) {
    exists i, j :: 0 <= i < j < |trace| && LetThrough(trace[i]) && trace[j].Diagnosed? && Healthy(trace[j].d)
  }

  /** Criterion of the host-root scaffold case. */
  ghost predicate ScaffoldMet(s: State) { ChainProven(s.trace) && HealthySince(s.trace) }

  ghost predicate PassEarned(c: Case, s: State) {
    && SignalLanded(c, s.trace)
    && if ScaffoldCase(c) then ScaffoldMet(s) else exists r :: OutcomeMet(c, s, r)
  }

  /** What each waiting point has behind it. */
  ghost predicate Behind(c: Case, s: State) {
    match s.pc
    case Arm => SignalLanded(c, s.trace)
    case Evaluate(start) => SignalLanded(c, s.trace) && s.trace != [] && s.trace[|s.trace| - 1] == Clock(start)
    case Elapsed(start, r) => SignalLanded(c, s.trace) && EndsEvaluated(s.trace, start, r) && !ScaffoldCase(c)
    case ReadJournal(_, r) =>
      SignalLanded(c, s.trace) && GateResultOf(s.trace, r) && HostRootSelected(r) && ScaffoldCase(c)
    case Scaffold(_) => SignalLanded(c, s.trace) && ChainProven(s.trace) && ScaffoldCase(c)
    case Remaining(_) => SignalLanded(c, s.trace) && ChainProven(s.trace) && ScaffoldCase(c) && ScaffoldTorn(s.trace)
    case Recover(_, _, _) =>
      SignalLanded(c, s.trace) && ChainProven(s.trace) && ScaffoldCase(c) && ScaffoldTorn(s.trace)
    case RecoverArm(_, _) =>
      SignalLanded(c, s.trace) && ChainProven(s.trace) && ScaffoldCase(c) && ScaffoldTorn(s.trace)
    case RecoverCheck(_, _, _) =>
      SignalLanded(c, s.trace) && ChainProven(s.trace) && ScaffoldCase(c) && ScaffoldTorn(s.trace)
    case Final(_, healthy) =>
      && SignalLanded(c, s.trace) && ChainProven(s.trace) && ScaffoldCase(c) && ScaffoldTorn(s.trace)
      && (healthy ==> HealthySince(s.trace))
    case _ => true
  }

  ghost predicate Inv(c: Case, s: State) {
    && Discipline(c, s) && Behind(c, s)
    && (s.verdict == PASS ==> PassEarned(c, s) && (s.pc.Unwind? || s.pc.Done?))
  }

  // -------------------------------------------------------------- preservation

  lemma FactsGrow(c: Case, t: seq<Event>, e: Event)
    ensures SignalLanded(c, t) ==> SignalLanded(c, t + [e])
    ensures forall r :: GateResultOf(t, r) ==> GateResultOf(t + [e], r)
    ensures ChainProven(t) ==> ChainProven(t + [e])
    ensures HealthySince(t) ==> HealthySince(t + [e])
    ensures ScaffoldTorn(t) || LetThrough(e) ==> ScaffoldTorn(t + [e])
  {
    assert (t + [e])[|t|] == e && forall i :: 0 <= i < |t| ==> (t + [e])[i] == t[i];
    if i :| 0 <= i < |t| && LetThrough(t[i]) { assert LetThrough((t + [e])[i]); }
  }

  /** An event that is not a teardown keeps the teardown order. */
  lemma OrderKept(s: State, s': State, e: Event)
    requires TeardownsInOrder(s) && s'.trace == s.trace + [e] && s'.restored == s.restored && !e.Teardown?
    ensures TeardownsInOrder(s')
  {
    assert forall i :: 0 <= i < |s.trace| ==> s'.trace[i] == s.trace[i];
  }

  lemma OrderRestored(s: State, s': State, how: How)
    requires TeardownsInOrder(s) && !s.restored
    requires s'.trace == s.trace + [Teardown(how)] && s'.restored == (how == Worked)
    ensures TeardownsInOrder(s')
  {
    assert forall i :: 0 <= i < |s.trace| ==> s'.trace[i] == s.trace[i];
    assert s'.trace[|s.trace|] == Teardown(how);
  }

  lemma TornDown(s: State)
    requires TeardownsInOrder(s) && s.restored && |s.trace| >= 2
    requires s.trace[0].Diagnosed? && !s.trace[1].Teardown?
    ensures exists j :: 2 <= j < |s.trace| && s.trace[j].Teardown?
  {
    var i :| 0 <= i < |s.trace| && s.trace[i] == Teardown(Worked);
  }

  /** The second event is never a teardown: something is waited for first. */
  ghost predicate SecondIsNotTeardown(s: State) { |s.trace| > 1 ==> !s.trace[1].Teardown? }

  /** A plain step: one event that is neither teardown nor interrupt. */
  lemma PlainStep(c: Case, s: State, e: Event)
    requires Inv(c, s) && SecondIsNotTeardown(s) && Waiting(s.pc, e) && !e.Teardown? && !e.Interrupt?
    ensures Inv(c, Next(c, s, e)) && SecondIsNotTeardown(Next(c, s, e))
  {
    hide Gate, Landed, HostRootSelected, ScaffoldCase;
    var s' := Next(c, s, e);
    PlainTrace(c, s, e);
    PlainDiscipline(c, s, e);
    FactsGrow(c, s.trace, e);
    PlainBehind(c, s, e);
    PlainVerdict(c, s, e);
  }

  lemma PlainTrace(c: Case, s: State, e: Event)
    requires Waiting(s.pc, e) && !e.Teardown? && !e.Interrupt?
    ensures Next(c, s, e).trace == s.trace + [e] && Next(c, s, e).restored == s.restored
  {
    hide Gate, Landed, HostRootSelected, ScaffoldCase;
  }

  /** How a plain step moves, without looking at what it learned. */
  ghost predicate Moved(s: State, s': State, e: Event) {
    && s'.trace == s.trace + [e] && s'.restored == s.restored
    && (e.Injected? <==> s.pc.Inject? && e.Injected?)
    && (s.pc.Pre? ==> e.Diagnosed? && (if Healthy(e.d) then s'.pc.Inject? else s'.pc.Done?))
    && (!s.pc.Pre? ==> InBlock(s.pc) && !s'.pc.Inject? && !s'.pc.Pre?)
    && (!s.pc.Pre? && !InBlock(s'.pc) ==> if s.restored then s'.pc.Done? else s'.pc.Unwind?)
    && (AfterScaffold(s.pc) ==> AfterScaffold(s'.pc) || !InBlock(s'.pc))
  }

  lemma PlainMoves(c: Case, s: State, e: Event)
    requires Waiting(s.pc, e) && !e.Teardown? && !e.Interrupt?
    ensures Moved(s, Next(c, s, e), e)
  {
    hide Gate, Landed, HostRootSelected, ScaffoldCase;
    PlainTrace(c, s, e);
  }

  lemma PlainDiscipline(c: Case, s: State, e: Event)
    requires Inv(c, s) && SecondIsNotTeardown(s) && Waiting(s.pc, e) && !e.Teardown? && !e.Interrupt?
    ensures Discipline(c, Next(c, s, e)) && SecondIsNotTeardown(Next(c, s, e))
  {
    hide Next, Waiting, PassEarned, Behind;
    var s' := Next(c, s, e);
    PlainMoves(c, s, e);
    assert !c.skip by { SkipIsDone(c, s, e); }
    OrderKept(s, s', e);
    hide TeardownsInOrder;
    assert forall i :: 0 <= i < |s.trace| ==> s'.trace[i] == s.trace[i];
    if s'.pc.Done? && |s'.trace| > 1 { TornDown(s'); }
  }

  lemma SkipIsDone(c: Case, s: State, e: Event)
    requires Inv(c, s) && Waiting(s.pc, e)
    ensures !c.skip
  {
  }

  lemma PlainBehind(c: Case, s: State, e: Event)
    requires Inv(c, s) && Waiting(s.pc, e) && !e.Teardown? && !e.Interrupt?
    ensures Behind(c, Next(c, s, e))
  {
    hide Gate, TeardownsInOrder, Opening, EndsTornDown, PassEarned, SignalLanded, GateResultOf, ChainProven,
         HealthySince, Landed, HostRootSelected, ScaffoldCase;
    FactsGrow(c, s.trace, e);
    match e
    case Diagnosed(d) => DiagnosedBehind(c, s, d);
    case Evaluated(w, available, max) => EvaluatedBehind(s.trace, s.pc.start, e);
    case Journal(fired) => if fired { JournalBehind(s.trace, s.pc.r); }
    case _ =>
  }

  lemma DiagnosedBehind(c: Case, s: State, d: Diagnosis)
    requires Inv(c, s) && Waiting(s.pc, Diagnosed(d))
    ensures Behind(c, Next(c, s, Diagnosed(d)))
  {
    hide TeardownsInOrder, EndsTornDown, PassEarned, GateResultOf, ChainProven, HealthySince, ScaffoldCase;
    var e := Diagnosed(d);
    FactsGrow(c, s.trace, e);
    if s.pc.Settle? && Landed(c, d) {
      LateEnough(c, s);
      assert (s.trace + [e])[|s.trace|] == e;
    } else if s.pc.Recover? && Healthy(d) {
      TornBefore(s, Log(s, e), e);
    }
  }

  lemma EvaluatedBehind(t: seq<Event>, start: real, e: Event)
    requires e.Evaluated? && t != [] && t[|t| - 1] == Clock(start)
    ensures GateResultOf(t + [e], Gate(e.world, e.available, e.max))
    ensures EndsEvaluated(t + [e], start, Gate(e.world, e.available, e.max))
  {
    hide Gate;
    assert (t + [e])[|t|] == e;
  }

  lemma JournalBehind(t: seq<Event>, r: GateResult)
    requires GateResultOf(t, r) && HostRootSelected(r)
    ensures ChainProven(t + [Journal(true)])
  {
    hide Gate, HostRootSelected;
    var e := Journal(true);
    assert (t + [e])[|t|] == e;
    assert GateResultOf(t + [e], r) by { GateResultGrows(t, r, e); }
  }

  lemma GateResultGrows(t: seq<Event>, r: GateResult, e: Event)
    requires GateResultOf(t, r)
    ensures GateResultOf(t + [e], r)
  {
    hide Gate;
    assert forall i :: 0 <= i < |t| ==> (t + [e])[i] == t[i];
  }

  lemma LateEnough(c: Case, s: State)
    requires Opening(c, s) && InBlock(s.pc) && !s.pc.Inject?
    ensures |s.trace| > 1
  {
  }

  lemma TornBefore(s: State, s': State, e: Event)
    requires ScaffoldTorn(s.trace) && s'.trace == s.trace + [e] && e.Diagnosed? && Healthy(e.d)
    ensures HealthySince(s'.trace)
  {
    var i :| 0 <= i < |s.trace| && LetThrough(s.trace[i]);
    assert s'.trace[i] == s.trace[i] && s'.trace[|s.trace|] == e;
  }

  lemma PlainVerdict(c: Case, s: State, e: Event)
    requires Inv(c, s) && Waiting(s.pc, e) && !e.Teardown? && !e.Interrupt?
    ensures var s' := Next(c, s, e);
            s'.verdict == PASS ==> PassEarned(c, s') && (s'.pc.Unwind? || s'.pc.Done?)
  {
    hide Gate, TeardownsInOrder, Opening, EndsTornDown, SignalLanded, GateResultOf, ChainProven, HealthySince, Landed,
         HostRootSelected, ScaffoldCase;
    var s' := Next(c, s, e);
    FactsGrow(c, s.trace, e);
    PlainTrace(c, s, e);
    if s'.verdict == PASS && s.pc.Elapsed? {
      MeasuredNow(s.trace, s.pc.start, s.pc.r, e);
      assert OutcomeMet(c, s', s.pc.r);
    }
  }

  lemma MeasuredNow(t: seq<Event>, start: real, r: GateResult, e: Event)
    requires EndsEvaluated(t, start, r) && e.Clock?
    ensures MeasuredAt(t + [e], |t| - 2, r) && (t + [e])[|t| - 2] == Clock(start) && (t + [e])[|t|] == e
  {
    hide Gate;
  }

  lemma TeardownStep(c: Case, s: State, how: How)
    requires Inv(c, s) && SecondIsNotTeardown(s) && Waiting(s.pc, Teardown(how))
    ensures Inv(c, Next(c, s, Teardown(how))) && SecondIsNotTeardown(Next(c, s, Teardown(how)))
  {
    hide Gate, Landed, HostRootSelected, ScaffoldCase, SignalLanded, ChainProven, HealthySince, GateResultOf,
         EndsEvaluated, OutcomeMet;
    var s' := Next(c, s, Teardown(how));
    assert !s.restored && !c.skip && s'.trace == s.trace + [Teardown(how)];
    OrderRestored(s, s', how);
    hide TeardownsInOrder;
    TeardownDiscipline(c, s, s', how);
    FactsGrow(c, s.trace, Teardown(how));
    hide Discipline;
    if s.verdict == PASS { PassGrows(c, s, s', Teardown(how)); }
  }

  lemma TeardownDiscipline(c: Case, s: State, s': State, how: How)
    requires Discipline(c, s) && SecondIsNotTeardown(s) && TeardownsInOrder(s') && !c.skip
    requires (s.pc.Scaffold? || s.pc.Unwind?) && s'.trace == s.trace + [Teardown(how)] && s'.restored == (how == Worked)
    requires s'.pc.Done? || (s'.pc.Remaining? && how != Broke) || (s'.pc.Unwind? && how != Worked)
    ensures Discipline(c, s') && SecondIsNotTeardown(s')
  {
    hide TeardownsInOrder;
    var n := |s.trace|;
    if s.pc.Unwind? { UnwindIsLate(c, s); } else { LateEnough(c, s); }
    assert s'.trace[n] == Teardown(how);
    assert forall i :: 0 <= i < n ==> s'.trace[i] == s.trace[i];
  }

  lemma UnwindIsLate(c: Case, s: State)
    requires Opening(c, s) && s.pc.Unwind?
    ensures |s.trace| > 1
  {
  }

  lemma PassGrows(c: Case, s: State, s': State, e: Event)
    requires PassEarned(c, s) && s'.trace == s.trace + [e]
    ensures PassEarned(c, s')
  {
    FactsGrow(c, s.trace, e);
    hide SignalLanded, ChainProven, HealthySince, GateResultOf;
    if !ScaffoldCase(c) {
      var r :| OutcomeMet(c, s, r);
      MetGrows(c, s, s', r, e);
    }
  }

  lemma MetGrows(c: Case, s: State, s': State, r: GateResult, e: Event)
    requires OutcomeMet(c, s, r) && s'.trace == s.trace + [e]
    ensures OutcomeMet(c, s', r)
  {
    hide Gate;
    var i: nat :| MeasuredAt(s.trace, i, r) && s.trace[i + 2].now - s.trace[i].now <= c.budget;
    assert MeasuredAt(s'.trace, i, r);
  }

  /** A signal runs the restore, if it is still due, and leaves through the ExitStack. */
  lemma InterruptStep(c: Case, s: State, how: How)
    requires Inv(c, s) && SecondIsNotTeardown(s) && InBlock(s.pc)
    ensures Inv(c, Next(c, s, Interrupt(how))) && SecondIsNotTeardown(Next(c, s, Interrupt(how)))
  {
    hide PassEarned;
    var s' := Next(c, s, Interrupt(how));
    assert !c.skip;
    assert s' == OnInterrupt(s, how) && s'.verdict == s.verdict != PASS;
    InterruptDiscipline(c, s, how);
  }

  lemma InterruptDiscipline(c: Case, s: State, how: How)
    requires Discipline(c, s) && SecondIsNotTeardown(s) && InBlock(s.pc) && !c.skip
    ensures Discipline(c, OnInterrupt(s, how)) && SecondIsNotTeardown(OnInterrupt(s, how))
  {
    var s', hit := OnInterrupt(s, how), Log(s, Interrupt(how));
    OrderKept(s, hit, Interrupt(how));
    assert hit.trace[|s.trace|] == Interrupt(how) && forall i :: 0 <= i < |s.trace| ==> hit.trace[i] == s.trace[i];
    if s.restored {
      SameOrder(hit, s');
      hide TeardownsInOrder;
      LateEnough(c, s);
      TornDown(hit);
      assert s'.trace == hit.trace;
    } else {
      OrderRestored(hit, s', how);
      hide TeardownsInOrder;
      assert s'.trace == hit.trace + [Teardown(how)];
      assert s'.trace[|hit.trace|] == Teardown(how) && forall i :: 0 <= i < |hit.trace| ==> s'.trace[i] == hit.trace[i];
    }
  }

  lemma SameOrder(s: State, s': State)
    requires TeardownsInOrder(s) && s'.trace == s.trace && s'.restored == s.restored
    ensures TeardownsInOrder(s')
  {
  }

  lemma {:induction false} RunKeeps(c: Case, events: seq<Event>)
    ensures Inv(c, Run(c, events)) && SecondIsNotTeardown(Run(c, events))
    decreases |events|
  {
    if events == [] {
      InitHolds(c);
    } else {
      hide Inv, Next, SecondIsNotTeardown;
      var before, e := events[..|events| - 1], events[|events| - 1];
      RunKeeps(c, before);
      var s := Run(c, before);
      NextKeeps(c, s, e);
    }
  }

  lemma InitHolds(c: Case)
    ensures Inv(c, Init(c)) && SecondIsNotTeardown(Init(c))
  {
  }

  lemma NextKeeps(c: Case, s: State, e: Event)
    requires Inv(c, s) && SecondIsNotTeardown(s)
    ensures Inv(c, Next(c, s, e)) && SecondIsNotTeardown(Next(c, s, e))
  {
    hide Inv, SecondIsNotTeardown;
    if Waiting(s.pc, e) {
      match e
      case Teardown(how) => TeardownStep(c, s, how);
      case Interrupt(how) => InterruptStep(c, s, how);
      case _ => PlainStep(c, s, e);
    } else {
      Unmoved(c, s, e);
    }
  }

  lemma Unmoved(c: Case, s: State, e: Event)
    requires !Waiting(s.pc, e)
    ensures Next(c, s, e) == s
  {
  }

  // ------------------------------------------------------------- the guarantees

  /** Injection happens only on a healthy pre-diagnosis; however the run ends (verdict,
      exception or signal) a teardown follows the injection; and a teardown that worked is
      never repeated. */
  lemma AlwaysTornDown(c: Case, events: seq<Event>, i: nat)
    requires i < |Run(c, events).trace| && Run(c, events).trace[i].Injected?
    ensures var s := Run(c, events);
            && i == 1 && s.trace[0].Diagnosed? && Healthy(s.trace[0].d)
            && (s.pc.Done? ==> exists j :: i < j < |s.trace| && s.trace[j].Teardown?)
            && (forall j, k :: 0 <= j < k < |s.trace| && s.trace[k].Teardown? ==> s.trace[j] != Teardown(Worked))
  {
    hide Run, Behind, PassEarned;
    RunKeeps(c, events);
  }

  /** PASS stands on the injected fault's own signal and on the case's own criterion; in
      the host-root case that includes a healthy look after the scaffold's teardown, which
      either worked or raised with an empty text. */
  lemma PassIsEarned(c: Case, events: seq<Event>)
    requires Run(c, events).verdict == PASS
    ensures PassEarned(c, Run(c, events))
  {
    hide Run, Behind, Discipline, PassEarned;
    RunKeeps(c, events);
  }

  /** Composed with the gate: PASS on a case expecting HEALED, outside the scaffold case,
      means the gate's last re-diagnosis was healthy, after one that was not. */
  lemma PassMeansHealed(c: Case, events: seq<Event>) returns (w: World, k: nat)
    requires Run(c, events).verdict == PASS && !ScaffoldCase(c) && c.expectedOutcome == HEALED
    ensures k >= 1 && !Healthy(w.diagnosis(0)) && Healthy(w.diagnosis(k))
    ensures exists available, max :: Gate(w, available, max).outcome == HEALED &&
              Gate(w, available, max).final == w.diagnosis(k) &&
              exists i :: 0 <= i < |Run(c, events).trace| && Run(c, events).trace[i] == Evaluated(w, available, max)
  {
    hide Run, Gate, SignalLanded;
    PassIsEarned(c, events);
    var s := Run(c, events);
    var r :| OutcomeMet(c, s, r);
    var i := MetWhere(c, s, r);
    w := s.trace[i].world;
    k := |r.attempts|;
    GateVerdict(w, s.trace[i].available, s.trace[i].max, k);
    assert s.trace[i] == Evaluated(w, s.trace[i].available, s.trace[i].max);
  }

  lemma MetWhere(c: Case, s: State, r: GateResult) returns (i: nat)
    requires OutcomeMet(c, s, r)
    ensures i < |s.trace| && s.trace[i].Evaluated?
    ensures r == Gate(s.trace[i].world, s.trace[i].available, s.trace[i].max)
  {
    var j: nat :| MeasuredAt(s.trace, j, r) && s.trace[j + 2].now - s.trace[j].now <= c.budget;
    i := j + 1;
  }
}

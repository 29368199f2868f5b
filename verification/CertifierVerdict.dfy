/** When a run of the fault certifier passes: from the events it saw, and nothing it wrote
    down itself. */
module CertifierVerdict {
  import opened Lists
  import opened Mesh
  import opened Certifier

  predicate Ended(pc: Pc) { pc.Unwind? || pc.Done? }

  ghost function ResultOf(e: Event): GateResult
    requires e.Evaluated?
  {
    Gate(e.world, e.available, e.max)
  }

  lemma ScaffoldIff(c: Case)
    ensures ScaffoldCase(c) <==> c.tier == HOST_ROOT && c.expectedOutcome == HEALED
  {
  }

  // ------------------------------------------ the RBAC and negative-control cases

  /** The gate was evaluated directly between two readings of the clock. */
  ghost predicate Measured(t: seq<Event>, i: nat) {
    i + 2 < |t| && t[i].Clock? && t[i + 1].Evaluated? && t[i + 2].Clock?
  }

  /** It had the declared outcome, and took no more than the budget. */
  ghost predicate Met(c: Case, t: seq<Event>, i: nat) {
    && Measured(t, i) && ResultOf(t[i + 1]).outcome == c.expectedOutcome
    && t[i + 2].now - t[i].now <= c.budget
  }

  ghost predicate Judged(c: Case, s: State) {
    var t, n := s.trace, |s.trace|;
    && (n > 0 && t[n - 1].Evaluated? && !Ended(s.pc) ==> s.pc.Elapsed?)
    && (s.pc.Evaluate? ==> n > 0 && t[n - 1] == Clock(s.pc.start))
    && (s.pc.Elapsed? ==>
          n > 1 && t[n - 2] == Clock(s.pc.start) && t[n - 1].Evaluated? && s.pc.r == ResultOf(t[n - 1]))
    && (!Ended(s.pc) ==> s.verdict != PASS && forall i: nat :: !Measured(t, i))
    && (Ended(s.pc) ==> (s.verdict == PASS <==> exists i: nat :: Met(c, t, i)))
    && (forall i: nat :: Measured(t, i) ==> s.elapsed == t[i + 2].now - t[i].now)
  }

  lemma MeasuredSnoc(t: seq<Event>, e: Event, i: nat)
    ensures Measured(t + [e], i) <==>
            Measured(t, i) || (i + 2 == |t| && t[i].Clock? && t[i + 1].Evaluated? && e.Clock?)
  {
    assert (t + [e])[|t|] == e && forall k :: 0 <= k < |t| ==> (t + [e])[k] == t[k];
  }

  /** An event that is no reading of the clock measures nothing new. */
  lemma NothingMeasured(c: Case, t: seq<Event>, e: Event)
    requires !e.Clock? || t == [] || !t[|t| - 1].Evaluated?
    ensures forall i: nat :: Measured(t + [e], i) <==> Measured(t, i)
    ensures forall i: nat :: Met(c, t + [e], i) <==> Met(c, t, i)
    ensures forall i: nat :: Measured(t, i) ==> (t + [e])[i] == t[i] && (t + [e])[i + 2] == t[i + 2]
  {
    hide Gate;
    forall i: nat ensures Measured(t + [e], i) <==> Measured(t, i) { MeasuredSnoc(t, e, i); }
    assert forall k :: 0 <= k < |t| ==> (t + [e])[k] == t[k];
  }

  /** A step that leaves the block without a verdict, or not at all. */
  lemma QuietStep(c: Case, s: State, s': State, e: Event)
    requires Judged(c, s) && (!e.Clock? || s.trace == [] || !s.trace[|s.trace| - 1].Evaluated?)
    requires s'.trace == s.trace + [e] && s'.elapsed == s.elapsed
    requires s'.pc.Evaluate? ==> e == Clock(s'.pc.start)
    requires !s'.pc.Elapsed? && (e.Evaluated? ==> Ended(s'.pc)) && (Ended(s.pc) ==> Ended(s'.pc))
    requires if Ended(s.pc) then s'.verdict == s.verdict else s'.verdict != PASS
    ensures Judged(c, s')
  {
    hide Gate, Measured, Met;
    NothingMeasured(c, s.trace, e);
    if !Ended(s.pc) { NothingMet(c, s.trace); }
    assert s'.trace[|s.trace|] == e;
  }

  lemma NothingMet(c: Case, t: seq<Event>)
    requires forall i: nat :: !Measured(t, i)
    ensures forall i: nat :: !Met(c, t, i)
  {
    hide Gate, Measured;
  }

  lemma EvaluatedStep(c: Case, s: State, s': State, e: Event)
    requires Judged(c, s) && s.pc.Evaluate? && e.Evaluated? && s'.trace == s.trace + [e]
    requires s'.pc == Elapsed(s.pc.start, ResultOf(e)) && s'.verdict == s.verdict && s'.elapsed == s.elapsed
    ensures Judged(c, s')
  {
    hide Gate, Measured, Met;
    NothingMeasured(c, s.trace, e);
  }

  lemma VerdictStep(c: Case, s: State, s': State, e: Event)
    requires Judged(c, s) && s.pc.Elapsed? && e.Clock? && s'.trace == s.trace + [e] && Ended(s'.pc)
    requires s'.elapsed == e.now - s.pc.start
    requires s'.verdict == PASS <==> e.now - s.pc.start <= c.budget && s.pc.r.outcome == c.expectedOutcome
    ensures Judged(c, s')
  {
    hide Gate;
    var t', n := s'.trace, |s.trace|;
    forall i: nat ensures Measured(t', i) <==> i == n - 2 { MeasuredSnoc(s.trace, e, i); }
    assert Measured(t', n - 2) && t'[n - 2] == Clock(s.pc.start) && t'[n - 1] == s.trace[n - 1] && t'[n] == e;
    assert Met(c, t', n - 2) <==> s'.verdict == PASS;
    assert forall i: nat :: Met(c, t', i) ==> i == n - 2;
  }

  lemma JudgedKept(c: Case, s: State, e: Event)
    requires Judged(c, s) && Inv(c, s) && !ScaffoldCase(c)
    ensures Judged(c, Next(c, s, e))
  {
    hide Discipline, PassEarned, SignalLanded, ChainProven, GateResultOf, HealthySince, ScaffoldTorn, Landed, Gate,
         HostRootSelected, Judged, EndsEvaluated;
    if Waiting(s.pc, e) {
      var s' := Next(c, s, e);
      LastEvaluated(c, s);
      if s.pc.Elapsed? && e.Clock? {
        VerdictStep(c, s, s', e);
      } else if e.Evaluated? {
        EvaluatedStep(c, s, s', e);
      } else if e.Interrupt? {
        var hit := Log(s, e).(pc := Unwind);
        QuietStep(c, s, hit, e);
        if s.restored { SameFacts(c, hit, s'); } else { QuietStep(c, hit, s', Teardown(e.how)); }
      } else {
        QuietStep(c, s, s', e);
      }
    }
  }

  lemma LastEvaluated(c: Case, s: State)
    requires Judged(c, s)
    ensures s.trace != [] && s.trace[|s.trace| - 1].Evaluated? && !Ended(s.pc) ==> s.pc.Elapsed?
    ensures !Ended(s.pc) ==> s.verdict != PASS
  {
  }

  lemma SameFacts(c: Case, s: State, s': State)
    requires Judged(c, s) && Ended(s.pc) && Ended(s'.pc)
    requires s'.trace == s.trace && s'.elapsed == s.elapsed && s'.verdict == s.verdict
    ensures Judged(c, s')
  {
  }

  lemma {:induction false} AlwaysJudged(c: Case, events: seq<Event>)
    requires !ScaffoldCase(c)
    ensures Judged(c, Run(c, events))
    decreases |events|
  {
    if events != [] {
      hide Judged, Next, Inv;
      var before := events[..|events| - 1];
      AlwaysJudged(c, before);
      RunKeeps(c, before);
      JudgedKept(c, Run(c, before), events[|events| - 1]);
    }
  }

  /** An RBAC or negative-control run that has ended passed if and only if its gate was
      evaluated directly between two readings of the clock no more than the budget apart,
      with the declared outcome; and what it recorded is the time between the two. */
  lemma PassIff(c: Case, events: seq<Event>)
    requires (c.tier != HOST_ROOT || c.expectedOutcome != HEALED) && Ended(Run(c, events).pc)
    ensures var s := Run(c, events);
            && (s.verdict == PASS <==> exists i: nat :: Met(c, s.trace, i))
            && (forall i: nat :: Measured(s.trace, i) ==> s.elapsed == s.trace[i + 2].now - s.trace[i].now)
  {
    hide Run;
    ScaffoldIff(c);
    AlwaysJudged(c, events);
  }

  // ------------------------------------------------------------ the host-root case

  /** The audited chain, event after event: an evaluation that engaged the host-root tier,
      its journal record, a teardown of the scaffold that lets the case go on, a reading. */
  ghost predicate Chain(t: seq<Event>, k: nat) {
    && k + 3 < |t| && t[k].Evaluated? && HostRootSelected(ResultOf(t[k])) && t[k + 1] == Journal(true)
    && LetThrough(t[k + 2]) && t[k + 3].Clock?
  }

  /** A healthy look that a reading of the clock follows. */
  ghost predicate HealthyLook(t: seq<Event>, m: nat) {
    m + 1 < |t| && t[m].Diagnosed? && Healthy(t[m].d) && t[m + 1].Clock?
  }

  ghost predicate Proven(t: seq<Event>, k: nat, m: nat) { Chain(t, k) && k + 3 < m && HealthyLook(t, m) }

  /** How far along the chain a run is. */
  ghost predicate Progress(s: State) {
    var t, n := s.trace, |s.trace|;
    && (s.pc.ReadJournal? ==> n > 0 && t[n - 1].Evaluated? && s.pc.r == ResultOf(t[n - 1]) && HostRootSelected(s.pc.r))
    && (s.pc.Scaffold? ==>
          n > 1 && t[n - 2].Evaluated? && HostRootSelected(ResultOf(t[n - 2])) && t[n - 1] == Journal(true))
    && (s.pc.Remaining? ==>
          n > 2 && t[n - 3].Evaluated? && HostRootSelected(ResultOf(t[n - 3])) && t[n - 2] == Journal(true)
          && LetThrough(t[n - 1]))
    && (AfterScaffold(s.pc) && !s.pc.Remaining? ==> exists k: nat :: Chain(t, k))
    && (s.pc.Final? && s.pc.healthy ==> n > 0 && exists k: nat :: Chain(t, k) && k + 3 < n - 1)
  }

  /** What the last event was, seen from where the run waits. */
  ghost predicate LastSeen(s: State) {
    var t, n := s.trace, |s.trace|;
    n > 0 && !Ended(s.pc) ==>
      && (LetThrough(t[n - 1]) ==> s.pc.Remaining?)
      && (s.pc.Final? && s.pc.healthy ==> t[n - 1].Diagnosed? && Healthy(t[n - 1].d))
      && (t[n - 1].Diagnosed? && Healthy(t[n - 1].d) ==> !AfterScaffold(s.pc) || (s.pc.Final? && s.pc.healthy))
  }

  predicate BeforeChain(pc: Pc) { !Ended(pc) && (!AfterScaffold(pc) || pc.Remaining?) }

  ghost predicate Certified(s: State) {
    && Progress(s) && LastSeen(s)
    && (BeforeChain(s.pc) ==> forall k: nat :: !Chain(s.trace, k))
    && (!Ended(s.pc) ==> s.verdict != PASS && forall k: nat, m: nat :: !Proven(s.trace, k, m))
    && (Ended(s.pc) ==> (s.verdict == PASS <==> exists k: nat, m: nat :: Proven(s.trace, k, m)))
  }

  lemma ChainSnoc(t: seq<Event>, e: Event, k: nat)
    ensures Chain(t + [e], k) <==>
            Chain(t, k) ||
            (k + 3 == |t| && t[k].Evaluated? && HostRootSelected(ResultOf(t[k])) && t[k + 1] == Journal(true)
             && LetThrough(t[k + 2]) && e.Clock?)
  {
    hide Gate, HostRootSelected;
    assert (t + [e])[|t|] == e && forall i :: 0 <= i < |t| ==> (t + [e])[i] == t[i];
  }

  lemma LookSnoc(t: seq<Event>, e: Event, m: nat)
    ensures HealthyLook(t + [e], m) <==>
            HealthyLook(t, m) || (m + 1 == |t| && t[m].Diagnosed? && Healthy(t[m].d) && e.Clock?)
  {
    assert (t + [e])[|t|] == e && forall i :: 0 <= i < |t| ==> (t + [e])[i] == t[i];
  }

  lemma ProvenSnoc(t: seq<Event>, e: Event, k: nat, m: nat)
    ensures Proven(t + [e], k, m) <==>
            Proven(t, k, m) ||
            (Chain(t, k) && k + 3 < m && m + 1 == |t| && t[m].Diagnosed? && Healthy(t[m].d) && e.Clock?)
  {
    ChainSnoc(t, e, k);
    LookSnoc(t, e, m);
    hide Gate, HostRootSelected;
  }

  lemma ChainGrows(t: seq<Event>, e: Event)
    ensures (exists k: nat :: Chain(t, k)) ==> exists k: nat :: Chain(t + [e], k)
  {
    hide Chain;
    if k: nat :| Chain(t, k) {
      ChainSnoc(t, e, k);
      assert Chain(t + [e], k);
    }
  }

  lemma ProgressKept(c: Case, s: State, e: Event)
    requires Progress(s) && Inv(c, s) && ScaffoldCase(c) && Waiting(s.pc, e) && !e.Interrupt?
    ensures Progress(Next(c, s, e))
  {
    hide Inv, Progress, ScaffoldCase, Next;
    match e
    case Diagnosed(d) => DiagnosedProgress(c, s, d);
    case Clock(now) =>
      assert !s.pc.Elapsed? by { NoOutcome(c, s); }
      ClockProgress(c, s, now);
    case _ => OtherProgress(c, s, e);
  }

  lemma DiagnosedProgress(c: Case, s: State, d: Diagnosis)
    requires Progress(s) && Waiting(s.pc, Diagnosed(d))
    ensures Progress(Next(c, s, Diagnosed(d)))
  {
    hide Landed, Gate, HostRootSelected, Chain;
    var e, t, n := Diagnosed(d), s.trace, |s.trace|;
    ChainGrows(t, e);
    if s.pc.Recover? && Healthy(d) {
      var k: nat :| Chain(t, k);
      ChainSnoc(t, e, k);
      ChainFits(t, k);
      assert Chain(t + [e], k) && k + 3 < n;
    }
  }

  lemma ClockProgress(c: Case, s: State, now: real)
    requires Progress(s) && Waiting(s.pc, Clock(now)) && !s.pc.Elapsed?
    ensures Progress(Next(c, s, Clock(now)))
  {
    hide Landed, Gate, HostRootSelected, Chain;
    var e, t, n := Clock(now), s.trace, |s.trace|;
    ChainGrows(t, e);
    if s.pc.Remaining? {
      ChainSnoc(t, e, n - 3);
      assert Chain(t + [e], n - 3);
    }
  }

  lemma OtherProgress(c: Case, s: State, e: Event)
    requires Progress(s) && ScaffoldCase(c) && Waiting(s.pc, e) && !e.Interrupt? && !e.Diagnosed? && !e.Clock?
    ensures Progress(Next(c, s, e))
  {
    hide Landed, Gate, HostRootSelected, Chain;
    var t, n := s.trace, |s.trace|;
    assert (t + [e])[n] == e && (n > 0 ==> (t + [e])[n - 1] == t[n - 1]) && (n > 1 ==> (t + [e])[n - 2] == t[n - 2]);
  }

  lemma NoOutcome(c: Case, s: State)
    requires Inv(c, s) && ScaffoldCase(c)
    ensures !s.pc.Elapsed?
  {
  }

  lemma ChainFits(t: seq<Event>, k: nat)
    requires Chain(t, k)
    ensures k + 3 < |t|
  {
  }

  lemma LastSeenKept(c: Case, s: State, e: Event)
    requires Inv(c, s) && ScaffoldCase(c) && Waiting(s.pc, e) && !e.Interrupt?
    ensures LastSeen(Next(c, s, e))
  {
    hide Discipline, PassEarned, SignalLanded, ChainProven, GateResultOf, HealthySince, ScaffoldTorn, Landed, Gate,
         HostRootSelected;
    assert Next(c, s, e).trace == s.trace + [e];
  }

  /** The run passes exactly when the first reading after a healthy look is taken. */
  lemma CertifiedKept(c: Case, s: State, e: Event)
    requires Certified(s) && Inv(c, s) && ScaffoldCase(c)
    ensures Certified(Next(c, s, e))
  {
    hide Discipline, PassEarned, SignalLanded, ChainProven, GateResultOf, HealthySince, ScaffoldTorn, Landed, Gate,
         HostRootSelected, Chain, Proven, Progress, LastSeen, Behind;
    if Waiting(s.pc, e) {
      if e.Interrupt? {
        InterruptCertified(c, s, e.how);
      } else {
        ProgressKept(c, s, e) by { CertifiedParts(s); }
        LastSeenKept(c, s, e);
        VerdictCertified(c, s, e);
      }
    }
  }

  lemma CertifiedParts(s: State)
    requires Certified(s)
    ensures Progress(s) && LastSeen(s)
  {
  }

  lemma VerdictCertified(c: Case, s: State, e: Event)
    requires Certified(s) && Inv(c, s) && ScaffoldCase(c) && Waiting(s.pc, e) && !e.Interrupt?
    requires Progress(Next(c, s, e)) && LastSeen(Next(c, s, e))
    ensures Certified(Next(c, s, e))
  {
    hide Discipline, PassEarned, SignalLanded, ChainProven, GateResultOf, HealthySince, ScaffoldTorn, Landed, Gate,
         HostRootSelected, Chain, Proven;
    var s', t, n := Next(c, s, e), s.trace, |s.trace|;
    assert s'.trace == t + [e];
    forall k: nat ensures Chain(t + [e], k) ==> Chain(t, k) || s.pc.Remaining? || Ended(s.pc) {
      ChainSnoc(t, e, k);
    }
    forall k: nat, m: nat
      ensures Proven(t + [e], k, m) <==>
              Proven(t, k, m) || (s.pc.Final? && s.pc.healthy && e.Clock? && Chain(t, k) && k + 3 < m && m + 1 == n)
    {
      ProvenSnoc(t, e, k, m);
    }
    if s.pc.Final? && s.pc.healthy && e.Clock? {
      var k: nat :| Chain(t, k) && k + 3 < n - 1;
      assert Proven(s'.trace, k, n - 1);
    }
    hide Progress, LastSeen;
  }

  lemma InterruptCertified(c: Case, s: State, how: How)
    requires Certified(s) && InBlock(s.pc)
    ensures Certified(OnInterrupt(s, how))
  {
    hide Gate, HostRootSelected, Chain, Proven;
    var e, t, s' := Interrupt(how), s.trace, OnInterrupt(s, how);
    forall k: nat, m: nat ensures !Proven(t + [e], k, m) { ProvenSnoc(t, e, k, m); }
    forall k: nat, m: nat ensures !Proven(t + [e] + [Teardown(how)], k, m) {
      ProvenSnoc(t + [e], Teardown(how), k, m);
    }
  }

  lemma {:induction false} AlwaysCertified(c: Case, events: seq<Event>)
    requires ScaffoldCase(c)
    ensures Certified(Run(c, events))
    decreases |events|
  {
    if events == [] {
      hide Gate, HostRootSelected;
    } else {
      hide Certified, Next, Inv;
      var before := events[..|events| - 1];
      AlwaysCertified(c, before);
      RunKeeps(c, before);
      CertifiedKept(c, Run(c, before), events[|events| - 1]);
    }
  }

  /** At some attempt the host-root tier was engaged, whatever came of it. */
  ghost predicate EngagedRoot(r: GateResult) {
    exists a :: a in r.attempts && a.action in {HostResettle, HostResettleTimeout}
  }

  lemma EngagedIff(r: GateResult)
    ensures HostRootSelected(r) <==> EngagedRoot(r)
  {
  }

  /** Events `k` to `k + 3` are the audited chain, and event `m` a healthy look after it that
      was taken to its end. */
  ghost predicate ChainAndLook(t: seq<Event>, k: nat, m: nat) {
    && k + 3 < m < |t| - 1
    && t[k].Evaluated? && EngagedRoot(ResultOf(t[k])) && t[k + 1] == Journal(true)
    && t[k + 2] in {Teardown(Worked), Teardown(BrokeSilently)} && t[k + 3].Clock?
    && t[m] == Diagnosed([]) && t[m + 1].Clock?
  }

  lemma ProvenIff(t: seq<Event>, k: nat, m: nat)
    ensures Proven(t, k, m) <==> ChainAndLook(t, k, m)
  {
    if k < |t| && t[k].Evaluated? { EngagedIff(ResultOf(t[k])); }
    hide Gate, HostRootSelected, EngagedRoot;
  }

  /** A host-root run that has ended passed if and only if the audited chain stands in its
      trace, event after event, and a healthy look was taken after it, to its end. */
  lemma ScaffoldPassIff(c: Case, events: seq<Event>)
    requires c.tier == HOST_ROOT && c.expectedOutcome == HEALED && Ended(Run(c, events).pc)
    ensures var s := Run(c, events);
            s.verdict == PASS <==> exists k: nat, m: nat :: ChainAndLook(s.trace, k, m)
  {
    hide Run, Progress, LastSeen, Chain, Proven, ChainAndLook;
    ScaffoldIff(c);
    AlwaysCertified(c, events);
    forall k: nat, m: nat ensures Proven(Run(c, events).trace, k, m) <==> ChainAndLook(Run(c, events).trace, k, m) {
      ProvenIff(Run(c, events).trace, k, m);
    }
  }

  // ---------------------------------------------------------- the settle window

  /** No look from the injection up to event `i` showed an expected signal. */
  ghost predicate Unlanded(c: Case, t: seq<Event>, i: nat) {
    forall k :: 2 <= k < i && k < |t| && t[k].Diagnosed? ==> !Landed(c, t[k].d)
  }

  /** The deadline was set by the reading after the first look, and event `i` is a later
      reading of a run whose fault has not landed yet. */
  ghost predicate Check(c: Case, t: seq<Event>, i: nat) {
    4 <= i < |t| && t[1] == Injected(true) && t[3].Clock? && t[i].Clock? && Unlanded(c, t, i)
  }

  predicate Settling(pc: Pc) { pc.Settle? || pc.SettleArm? || pc.SettleCheck? }

  ghost predicate InSettle(c: Case, s: State) {
    var t, n := s.trace, |s.trace|;
    && (s.pc.Inject? ==> n == 1)
    && (Settling(s.pc) ==> n >= 2 && Unlanded(c, t, n))
    && (s.pc.SettleArm? ==> n == 3)
    && (s.pc.SettleCheck? ==> n >= 4 && t[3].Clock? && s.pc.due == t[3].now + c.settle)
    && (s.pc.Settle? ==> if s.pc.deadline.None? then n == 2
                         else n >= 5 && t[3].Clock? && s.pc.deadline.value == t[3].now + c.settle)
    && (InBlock(s.pc) && !Settling(s.pc) && !s.pc.Inject? ==> !Unlanded(c, t, n))
  }

  /** The run goes no further than this check exactly when it is past the deadline. */
  ghost predicate Decides(c: Case, s: State, i: nat)
    requires Check(c, s.trace, i)
  {
    var t := s.trace;
    (if i + 1 < |t| then t[i + 1].Teardown? else Ended(s.pc)) <==> t[i].now >= t[3].now + c.settle
  }

  ghost predicate SettleTimed(c: Case, s: State) {
    forall i: nat :: Check(c, s.trace, i) ==> Decides(c, s, i)
  }

  lemma UnlandedSnoc(c: Case, t: seq<Event>, e: Event, i: nat)
    ensures i <= |t| ==> (Unlanded(c, t + [e], i) <==> Unlanded(c, t, i))
    ensures Unlanded(c, t + [e], |t| + 1) <==>
            Unlanded(c, t, |t|) && (|t| >= 2 && e.Diagnosed? ==> !Landed(c, e.d))
  {
    hide Landed;
    assert (t + [e])[|t|] == e && forall k :: 0 <= k < |t| ==> (t + [e])[k] == t[k];
  }

  lemma CheckSnoc(c: Case, t: seq<Event>, e: Event, i: nat)
    ensures i < |t| ==> (Check(c, t + [e], i) <==> Check(c, t, i))
    ensures Check(c, t + [e], |t|) <==>
            |t| >= 4 && t[1] == Injected(true) && t[3].Clock? && e.Clock? && Unlanded(c, t, |t|)
  {
    UnlandedSnoc(c, t, e, i);
    UnlandedSnoc(c, t, e, |t|);
    hide Unlanded;
    assert (t + [e])[|t|] == e && forall k :: 0 <= k < |t| ==> (t + [e])[k] == t[k];
  }

  lemma NoLookYet(c: Case, t: seq<Event>, i: nat)
    requires i <= 2
    ensures Unlanded(c, t, i)
  {
  }

  lemma InSettleKept(c: Case, s: State, e: Event)
    requires InSettle(c, s) && Waiting(s.pc, e) && !e.Interrupt? && (s.pc.Pre? ==> s.trace == [])
    ensures InSettle(c, Next(c, s, e))
  {
    hide Unlanded, Landed, Gate, HostRootSelected, ScaffoldCase;
    var t, n := s.trace, |s.trace|;
    UnlandedSnoc(c, t, e, n);
    NoLookYet(c, t + [e], 2);
    if e.Clock? {
      ClockInSettle(c, s, e.now);
    } else {
      assert n > 3 ==> (t + [e])[3] == t[3];
    }
  }

  lemma ClockInSettle(c: Case, s: State, now: real)
    requires InSettle(c, s) && Waiting(s.pc, Clock(now))
    ensures InSettle(c, Next(c, s, Clock(now)))
  {
    hide Unlanded, Landed, Gate, HostRootSelected, ScaffoldCase;
    var t, n := s.trace, |s.trace|;
    UnlandedSnoc(c, t, Clock(now), n);
    assert (n > 3 ==> (t + [Clock(now)])[3] == t[3]) && (t + [Clock(now)])[n] == Clock(now);
  }

  /** What a step does to the checks: the last event may be one, and what follows it is a
      teardown only when the run had ended. */
  lemma TimedSnoc(c: Case, s: State, s': State, e: Event)
    requires SettleTimed(c, s) && s'.trace == s.trace + [e]
    requires e.Teardown? ==> Ended(s.pc) || s.trace == [] || !Check(c, s.trace, |s.trace| - 1)
    requires Ended(s.pc) ==> e.Teardown? || s.trace == [] || !Check(c, s.trace, |s.trace| - 1)
    requires Check(c, s'.trace, |s.trace|) ==> (Ended(s'.pc) <==> e.now >= s'.trace[3].now + c.settle)
    ensures SettleTimed(c, s')
  {
    hide Unlanded;
    var t', n := s'.trace, |s.trace|;
    assert t'[n] == e && forall k :: 0 <= k < n ==> t'[k] == s.trace[k];
    forall i: nat | Check(c, t', i) ensures Decides(c, s', i) {
      CheckSnoc(c, s.trace, e, i);
      assert i < n ==> Decides(c, s, i);
    }
  }

  lemma NoCheck(c: Case, s: State)
    requires InSettle(c, s) && s.trace != []
    ensures Check(c, s.trace, |s.trace| - 1) ==>
              Settling(s.pc) || Ended(s.pc) || s.pc.Pre?
  {
    if Check(c, s.trace, |s.trace| - 1) {
      hide Landed;
      assert s.trace[|s.trace| - 1].Clock?;
      assert Unlanded(c, s.trace, |s.trace|);
    }
  }

  lemma SettleTimedKept(c: Case, s: State, e: Event)
    requires InSettle(c, s) && SettleTimed(c, s) && Waiting(s.pc, e) && !e.Interrupt?
    requires s.pc.Pre? ==> s.trace == []
    ensures SettleTimed(c, Next(c, s, e))
  {
    hide SettleTimed, Check, Unlanded, Landed, Gate, HostRootSelected, ScaffoldCase;
    var s', t, n := Next(c, s, e), s.trace, |s.trace|;
    assert s'.trace == t + [e];
    assert (t + [e])[n] == e && forall k :: 0 <= k < n ==> (t + [e])[k] == t[k];
    CheckSnoc(c, t, e, n);
    if t != [] { NoCheck(c, s); }
    TimedSnoc(c, s, s', e);
  }

  lemma InterruptTimed(c: Case, s: State, how: How)
    requires InSettle(c, s) && SettleTimed(c, s) && InBlock(s.pc)
    ensures SettleTimed(c, OnInterrupt(s, how)) && InSettle(c, OnInterrupt(s, how))
  {
    hide SettleTimed, Check, Unlanded, Landed;
    var e, t, n := Interrupt(how), s.trace, |s.trace|;
    var hit := Log(s, e).(pc := Unwind);
    CheckSnoc(c, t, e, n);
    TimedSnoc(c, s, hit, e);
    if s.restored {
      SameTimes(c, hit, OnInterrupt(s, how));
    } else {
      CheckSnoc(c, t + [e], Teardown(how), n + 1);
      CheckSnoc(c, t, e, n);
      TimedSnoc(c, hit, OnInterrupt(s, how), Teardown(how));
    }
  }

  lemma SameTimes(c: Case, s: State, s': State)
    requires SettleTimed(c, s) && s'.trace == s.trace && Ended(s.pc) && Ended(s'.pc)
    ensures SettleTimed(c, s')
  {
    hide Check;
    forall i: nat | Check(c, s'.trace, i) ensures Decides(c, s', i) { assert Decides(c, s, i); }
  }

  lemma {:induction false} AlwaysSettles(c: Case, events: seq<Event>)
    ensures var s := Run(c, events);
            InSettle(c, s) && SettleTimed(c, s) && (s.pc.Pre? ==> s.trace == [])
    decreases |events|
  {
    if events != [] {
      hide Inv, Next, InSettle, SettleTimed;
      var before, e := events[..|events| - 1], events[|events| - 1];
      AlwaysSettles(c, before);
      SettleStep(c, Run(c, before), e);
    }
  }

  lemma SettleStep(c: Case, s: State, e: Event)
    requires InSettle(c, s) && SettleTimed(c, s) && (s.pc.Pre? ==> s.trace == [])
    ensures var s' := Next(c, s, e);
            InSettle(c, s') && SettleTimed(c, s') && (s'.pc.Pre? ==> s'.trace == [])
  {
    hide InSettle, SettleTimed, Landed, Gate, HostRootSelected, ScaffoldCase;
    if Waiting(s.pc, e) {
      if e.Interrupt? {
        InterruptTimed(c, s, e.how);
      } else {
        InSettleKept(c, s, e);
        SettleTimedKept(c, s, e);
      }
    }
  }

  /** How long a run waits for its fault to show: at every check made before an expected
      signal was seen, it gives up if and only if the settle window, counted from the
      reading after the first look, is over. */
  lemma GivesUpIff(c: Case, events: seq<Event>, i: nat)
    requires Check(c, Run(c, events).trace, i)
    ensures var s, t := Run(c, events), Run(c, events).trace;
            (if i + 1 < |t| then t[i + 1].Teardown? else Ended(s.pc)) <==> t[i].now >= t[3].now + c.settle
  {
    hide Run, Check;
    AlwaysSettles(c, events);
    CheckDecides(c, Run(c, events), i);
  }

  lemma CheckDecides(c: Case, s: State, i: nat)
    requires SettleTimed(c, s) && Check(c, s.trace, i)
    ensures var t := s.trace;
            (if i + 1 < |t| then t[i + 1].Teardown? else Ended(s.pc)) <==> t[i].now >= t[3].now + c.settle
  {
    assert Decides(c, s, i);
  }
}

/** scripts/deploy/faultinject.py: what a PASS does not say, and exactly when it does. The
    teardown after the verdict, the time a host-root recovery may take, and several cases
    in a row. */
module CertifierLimits {
  import opened Lists
  import opened Mesh
  import opened Certifier

  // ------------------------------------------------- the teardown after the verdict

  ghost predicate NoTeardown(trace: seq<Event>) { forall i :: 0 <= i < |trace| ==> !trace[i].Teardown? }

  /** The last event is the run's only teardown, and the result says how it went. */
  ghost predicate EndsInOneTeardown(s: State) {
    && |s.trace| > 0 && s.trace[|s.trace| - 1].Teardown? && NoTeardown(s.trace[..|s.trace| - 1])
    && s.restored == (s.trace[|s.trace| - 1].how == Worked) && s.teardownFailed == !s.restored
  }

  /** Outside the scaffold case nothing is torn down before the verdict. */
  ghost predicate TornDownLast(c: Case, s: State) {
    !ScaffoldCase(c) ==>
      && (InBlock(s.pc) || s.pc.Pre? ==> NoTeardown(s.trace) && !s.restored && !s.teardownFailed)
      && (s.verdict == PASS ==>
            if s.pc.Done? then EndsInOneTeardown(s)
            else s.pc.Unwind? && NoTeardown(s.trace) && !s.restored && !s.teardownFailed)
  }

  lemma QuietSnoc(trace: seq<Event>, e: Event)
    ensures NoTeardown(trace + [e]) <==> NoTeardown(trace) && !e.Teardown?
    ensures (trace + [e])[..|trace|] == trace && (trace + [e])[|trace|] == e
  {
    assert forall i :: 0 <= i < |trace| ==> (trace + [e])[i] == trace[i];
    if NoTeardown(trace + [e]) { assert (trace + [e])[|trace|] == e; }
  }

  lemma TornDownLastKept(c: Case, s: State, e: Event)
    requires TornDownLast(c, s) && Inv(c, s)
    ensures TornDownLast(c, Next(c, s, e))
  {
    hide Gate, Landed, HostRootSelected, Discipline, PassEarned, NoTeardown, SignalLanded, ChainProven, HealthySince,
         GateResultOf;
    QuietSnoc(s.trace, e);
  }

  lemma {:induction false} TornDownLastAlways(c: Case, events: seq<Event>)
    ensures TornDownLast(c, Run(c, events))
    decreases |events|
  {
    if events != [] {
      hide Inv, Next, TornDownLast;
      TornDownLastAlways(c, events[..|events| - 1]);
      RunKeeps(c, events[..|events| - 1]);
      TornDownLastKept(c, Run(c, events[..|events| - 1]), events[|events| - 1]);
    }
  }

  ghost predicate OnlyTeardown(trace: seq<Event>, k: nat) {
    k < |trace| && trace[k].Teardown? && forall i :: 0 <= i < |trace| && i != k ==> !trace[i].Teardown?
  }

  /** The scaffold was torn down once, and the case went on. */
  ghost predicate TornOnce(s: State) {
    exists k: nat :: OnlyTeardown(s.trace, k) && LetThrough(s.trace[k]) && s.restored == (s.trace[k].how == Worked)
  }

  /** The scaffold's teardown had raised with an empty text and was tried once more at the
      end, which is what decides. */
  ghost predicate TriedAgain(s: State) {
    var n := |s.trace| - 1;
    && n >= 0 && s.trace[n].Teardown? && s.restored == (s.trace[n].how == Worked)
    && exists k: nat :: OnlyTeardown(s.trace[..n], k) && s.trace[..n][k] == Teardown(BrokeSilently)
  }

  /** In the scaffold case the scaffold goes before the last looks. */
  ghost predicate TornDownFirst(c: Case, s: State) {
    ScaffoldCase(c) ==>
      && ((InBlock(s.pc) && !AfterScaffold(s.pc)) || s.pc.Pre? ==> NoTeardown(s.trace) && !s.restored)
      && (AfterScaffold(s.pc) ==> TornOnce(s))
      && (s.verdict == PASS ==>
            if s.pc.Unwind? then TornOnce(s) && !s.restored
            else s.pc.Done? && if s.restored then TornOnce(s) || TriedAgain(s) else TriedAgain(s))
  }

  lemma OnlySnoc(trace: seq<Event>, e: Event)
    ensures forall k: nat :: OnlyTeardown(trace, k) && !e.Teardown? ==> OnlyTeardown(trace + [e], k)
    ensures NoTeardown(trace) && e.Teardown? ==> OnlyTeardown(trace + [e], |trace|)
  {
    assert (trace + [e])[|trace|] == e && forall i :: 0 <= i < |trace| ==> (trace + [e])[i] == trace[i];
  }

  /** A state whose trace grew by an event that is no teardown. */
  lemma TornOnceGrows(s: State, s': State, e: Event)
    requires TornOnce(s) && !e.Teardown? && s'.trace == s.trace + [e] && s'.restored == s.restored
    ensures TornOnce(s')
  {
    var k: nat :| OnlyTeardown(s.trace, k) && LetThrough(s.trace[k]) && s.restored == (s.trace[k].how == Worked);
    OnlySnoc(s.trace, e);
    assert s'.trace[k] == s.trace[k];
  }

  lemma NowTornOnce(s: State, s': State, how: How)
    requires NoTeardown(s.trace) && how != Broke
    requires s'.trace == s.trace + [Teardown(how)] && s'.restored == (how == Worked)
    ensures TornOnce(s')
  {
    OnlySnoc(s.trace, Teardown(how));
    assert s'.trace[|s.trace|] == Teardown(how);
  }

  lemma NowTriedAgain(s: State, s': State, how: How)
    requires TornOnce(s) && !s.restored && s'.trace == s.trace + [Teardown(how)] && s'.restored == (how == Worked)
    ensures TriedAgain(s')
  {
    assert s'.trace[..|s'.trace| - 1] == s.trace && s'.trace[|s.trace|] == Teardown(how);
  }

  lemma TornDownFirstKept(c: Case, s: State, e: Event)
    requires TornDownFirst(c, s) && Inv(c, s)
    ensures TornDownFirst(c, Next(c, s, e))
  {
    hide Discipline, TornDownFirst, Behind, PassEarned;
    if ScaffoldCase(c) && Waiting(s.pc, e) {
      if e.Teardown? {
        TeardownKeepsFirst(c, s, e.how);
      } else if e.Interrupt? {
        InterruptKeepsFirst(c, s, e.how);
      } else {
        PlainKeepsFirst(c, s, e);
      }
    } else {
      NotWaiting(c, s, e);
    }
  }

  lemma NotWaiting(c: Case, s: State, e: Event)
    requires TornDownFirst(c, s) && (!ScaffoldCase(c) || !Waiting(s.pc, e))
    ensures TornDownFirst(c, Next(c, s, e))
  {
    hide TornOnce, TriedAgain, NoTeardown;
  }

  lemma TeardownKeepsFirst(c: Case, s: State, how: How)
    requires TornDownFirst(c, s) && Inv(c, s) && Waiting(s.pc, Teardown(how)) && ScaffoldCase(c)
    ensures TornDownFirst(c, Next(c, s, Teardown(how)))
  {
    hide Behind, PassEarned, NoTeardown, TornOnce, TriedAgain, Discipline;
    var s' := Next(c, s, Teardown(how));
    if s.pc.Unwind? {
      if s.verdict == PASS { NowTriedAgain(s, s', how); }
    } else if how != Broke {
      NowTornOnce(s, s', how);
    }
  }

  /** An interrupt ends the run, and no run is interrupted once it has passed. */
  lemma InterruptKeepsFirst(c: Case, s: State, how: How)
    requires TornDownFirst(c, s) && Inv(c, s) && Waiting(s.pc, Interrupt(how)) && ScaffoldCase(c)
    ensures TornDownFirst(c, Next(c, s, Interrupt(how)))
  {
    hide Behind, PassEarned, NoTeardown, TornOnce, TriedAgain, Discipline;
  }

  lemma PlainKeepsFirst(c: Case, s: State, e: Event)
    requires TornDownFirst(c, s) && Inv(c, s) && Waiting(s.pc, e) && ScaffoldCase(c)
    requires !e.Teardown? && !e.Interrupt?
    ensures TornDownFirst(c, Next(c, s, e))
  {
    hide PassEarned, NoTeardown, TornOnce, TriedAgain, Discipline, Gate, Landed, HostRootSelected, SignalLanded,
         GateResultOf, ChainProven, ScaffoldTorn, HealthySince;
    QuietSnoc(s.trace, e);
    PlainTrace(c, s, e);
    if AfterScaffold(s.pc) { TornOnceGrows(s, Next(c, s, e), e); }
  }

  lemma {:induction false} TornDownFirstAlways(c: Case, events: seq<Event>)
    ensures TornDownFirst(c, Run(c, events))
    decreases |events|
  {
    if events == [] {
      hide TornOnce, TriedAgain;
    } else {
      hide Inv, Next, TornDownFirst;
      TornDownFirstAlways(c, events[..|events| - 1]);
      RunKeeps(c, events[..|events| - 1]);
      TornDownFirstKept(c, Run(c, events[..|events| - 1]), events[|events| - 1]);
    }
  }

  /** When a finished PASS means that the mesh was restored. In the host-root case: if and
      only if the scaffold's teardown worked, or that one raised with an empty text and the
      one at the end worked. Elsewhere there is exactly one teardown, the last event, and
      the mesh is restored if and only if it worked. */
  lemma PassRestoresIff(c: Case, events: seq<Event>)
    requires Run(c, events).verdict == PASS && Run(c, events).pc.Done?
    ensures var s := Run(c, events);
            if ScaffoldCase(c) then
              exists k: nat :: k < |s.trace| && LetThrough(s.trace[k]) && ScaffoldRestores(s, k)
            else EndsInOneTeardown(s) && (s.restored <==> s.trace[|s.trace| - 1] == Teardown(Worked))
  {
    hide Run, Behind, Discipline, SignalLanded, ChainProven, HealthySince;
    TornDownLastAlways(c, events);
    TornDownFirstAlways(c, events);
    RunKeeps(c, events);
    var s := Run(c, events);
    if ScaffoldCase(c) {
      if TriedAgain(s) {
        var n := |s.trace| - 1;
        var k: nat :| OnlyTeardown(s.trace[..n], k) && s.trace[..n][k] == Teardown(BrokeSilently);
        assert s.trace[k] == Teardown(BrokeSilently);
        assert forall i :: 0 <= i < n ==> s.trace[i] == s.trace[..n][i];
        assert ScaffoldRestores(s, k);
      } else {
        var k: nat :| OnlyTeardown(s.trace, k) && LetThrough(s.trace[k]) && s.restored == (s.trace[k].how == Worked);
        assert ScaffoldRestores(s, k);
      }
    }
  }

  /** `k` is the scaffold's teardown: the only one if it worked, and otherwise followed by
      exactly one more, the last event. */
  ghost predicate ScaffoldRestores(s: State, k: nat)
    requires k < |s.trace| && s.trace[k].Teardown?
  {
    var n := |s.trace| - 1;
    && (forall i :: 0 <= i < n && i != k ==> !s.trace[i].Teardown?)
    && (if s.trace[k].how == Worked then k == n || !s.trace[n].Teardown? else k < n && s.trace[n].Teardown?)
    && (s.restored <==> s.trace[k].how == Worked || s.trace[n] == Teardown(Worked))
  }

  // ------------------------------------------------------------ runs that show it

  lemma RunSnoc(c: Case, a: seq<Event>, e: Event)
    ensures Run(c, a + [e]) == Next(c, Run(c, a), e)
  {
    hide Next;
    assert (a + [e])[..|a|] == a;
  }

  /** The fault is injected, lands at once, and the gate evaluates from time zero. */
  ghost function Opening4(sig: Signal): seq<Event> {
    [Diagnosed([])] + [Injected(true)] + [Diagnosed([sig])] + [Clock(0.0)]
  }

  lemma AfterOpening(c: Case, sig: Signal)
    requires !c.skip && sig in c.expectedSignals
    ensures Run(c, Opening4(sig)) == State(Evaluate(0.0), FAIL, false, false, 0.0, Opening4(sig))
  {
    var t0: seq<Event> := [];
    var t1 := [Diagnosed([])];
    var t2 := t1 + [Injected(true)];
    var t3 := t2 + [Diagnosed([sig])];
    RunSnoc(c, t0, Diagnosed([]));
    assert t0 + [Diagnosed([])] == t1;
    RunSnoc(c, t1, Injected(true));
    RunSnoc(c, t2, Diagnosed([sig]));
    assert Landed(c, [sig]);
    RunSnoc(c, t3, Clock(0.0));
    hide Run;
  }

  /** The input: the gate's outcome is the declared one within the budget, and then the
      only teardown fails. The run is a PASS on a mesh that is still broken. */
  lemma PassWithoutRestore(c: Case, w: World, available: bool, max: int, sig: Signal)
    requires !ScaffoldCase(c) && !c.skip && sig in c.expectedSignals && c.budget >= 0.0
    requires Gate(w, available, max).outcome == c.expectedOutcome
    ensures var s := Run(c, Opening4(sig) + [Evaluated(w, available, max)] + [Clock(0.0)] + [Teardown(Broke)]);
            s.pc.Done? && s.verdict == PASS && !s.restored && s.teardownFailed
  {
    hide Gate, Run, Opening4;
    AfterOpening(c, sig);
    var t4 := Opening4(sig);
    RunSnoc(c, t4, Evaluated(w, available, max));
    RunSnoc(c, t4 + [Evaluated(w, available, max)], Clock(0.0));
    RunSnoc(c, t4 + [Evaluated(w, available, max)] + [Clock(0.0)], Teardown(Broke));
  }

  /** The host-root input: the scaffold's teardown raises with an empty text, the first look
      is healthy all the same, and so the case passes; the last teardown alone decides. */
  lemma PassAfterSilentTeardown(c: Case, w: World, max: int, sig: Signal, how: How)
    requires Scriptable(c, w, max, sig)
    ensures var s := Run(c, SilentScript(w, max, sig) + [Teardown(how)]);
            s.pc.Done? && s.verdict == PASS && (s.restored <==> how == Worked)
  {
    hide Run, ToTeardown, Scriptable;
    AfterTeardown(c, w, max, sig, BrokeSilently);
    var t := ToTeardown(w, max, sig, BrokeSilently);
    RunSnoc(c, t, Clock(0.0));
    RunSnoc(c, t + [Clock(0.0)], Diagnosed([]));
    RunSnoc(c, t + [Clock(0.0)] + [Diagnosed([])], Clock(0.0));
    RunSnoc(c, SilentScript(w, max, sig), Teardown(how));
  }

  ghost function SilentScript(w: World, max: int, sig: Signal): seq<Event> {
    ToTeardown(w, max, sig, BrokeSilently) + [Clock(0.0)] + [Diagnosed([])] + [Clock(0.0)]
  }

  // --------------------------------------------- how long a host-root recovery takes

  /** The clock never goes back. */
  ghost predicate Monotone(trace: seq<Event>) {
    forall i, j :: 0 <= i < j < |trace| && trace[i].Clock? && trace[j].Clock? ==> trace[i].now <= trace[j].now
  }

  /** From a clock reading, over one look at the mesh, to the next reading: at most `most`. */
  ghost predicate LooksTakeAtMost(trace: seq<Event>, most: real) {
    forall i :: 0 <= i < |trace| - 2 && trace[i].Clock? && trace[i + 1].Diagnosed? && trace[i + 2].Clock? ==>
      trace[i + 2].now - trace[i].now <= most
  }

  /** What is left of the budget at a reading. */
  ghost function Left(c: Case, start: real, now: real): real {
    if c.budget - (now - start) < 0.0 then 0.0 else c.budget - (now - start)
  }

  /** `k` is the first reading after the scaffold was torn down, in a recovery timed from
      `start`. */
  ghost predicate Cleared(trace: seq<Event>, start: real, k: nat) {
    && 1 <= k < |trace| && trace[k].Clock? && LetThrough(trace[k - 1])
    && exists j :: 0 <= j < k - 1 && trace[j] == Clock(start) && trace[j + 1].Evaluated?
  }

  /** The first look was unhealthy and the deadline was then set to `due`. */
  ghost predicate Waited(c: Case, trace: seq<Event>, start: real, k: nat, due: real) {
    && Cleared(trace, start, k) && k + 2 < |trace|
    && trace[k + 1].Diagnosed? && !Healthy(trace[k + 1].d)
    && trace[k + 2].Clock? && due == trace[k + 2].now + Left(c, start, trace[k].now)
  }

  /** The look that found the mesh healthy began at reading `b`: the first one, or a later
      one allowed because that reading was before the deadline. */
  ghost predicate Recovered(c: Case, trace: seq<Event>, start: real, k: nat, b: nat) {
    && Cleared(trace, start, k) && b + 1 < |trace|
    && trace[b].Clock? && trace[b + 1].Diagnosed? && Healthy(trace[b + 1].d)
    && (b == k || (b > k + 2 && exists due :: Waited(c, trace, start, k, due) && trace[b].now < due))
  }

  ghost predicate RecoveredFrom(c: Case, trace: seq<Event>, start: real, b: nat) {
    exists k: nat :: Recovered(c, trace, start, k, b)
  }

  /** What each waiting point after the evaluation knows of the time. */
  ghost predicate Timed(c: Case, s: State) {
    var n := |s.trace|;
    match s.pc
    case Evaluate(start) => n > 0 && s.trace[n - 1] == Clock(start)
    case ReadJournal(start, _) => StartRead(s.trace, start)
    case Scaffold(start) => StartRead(s.trace, start)
    case Remaining(start) => n > 0 && LetThrough(s.trace[n - 1]) && StartRead(s.trace[..n - 1], start)
    case Recover(start, left, None) =>
      n > 0 && Cleared(s.trace, start, n - 1) && left == Left(c, start, s.trace[n - 1].now)
    case Recover(start, left, Some(due)) =>
      n > 0 && s.trace[n - 1].Clock? && s.trace[n - 1].now < due &&
      exists k: nat :: k + 2 < n - 1 && Waited(c, s.trace, start, k, due)
    case RecoverArm(start, left) =>
      n > 1 && Cleared(s.trace, start, n - 2) && left == Left(c, start, s.trace[n - 2].now) &&
      s.trace[n - 1].Diagnosed? && !Healthy(s.trace[n - 1].d)
    case RecoverCheck(start, left, due) => exists k: nat :: Waited(c, s.trace, start, k, due)
    case Final(start, healthy) => healthy ==> n > 1 && RecoveredFrom(c, s.trace, start, n - 2)
    case _ => true
  }

  ghost predicate StartRead(trace: seq<Event>, start: real) {
    exists j :: 0 <= j < |trace| - 1 && trace[j] == Clock(start) && trace[j + 1].Evaluated?
  }

  /** The verdict is given at the reading after the healthy look that began at `b`; only a
      second teardown may follow. */
  ghost predicate EndsAfter(c: Case, s: State, start: real, k: nat, b: nat) {
    && b + 2 < |s.trace| <= b + 4 && s.trace[b + 2].Clock? && Recovered(c, s.trace, start, k, b)
    && s.elapsed == s.trace[b + 2].now - start
    && (|s.trace| == b + 4 ==> s.trace[b + 3].Teardown?)
  }

  ghost predicate TimedPass(c: Case, s: State) {
    s.verdict == PASS && ScaffoldCase(c) ==>
      exists start, k: nat, b: nat ::
        EndsAfter(c, s, start, k, b) && (s.pc.Done? || (s.pc.Unwind? && |s.trace| == b + 3))
  }

  lemma StartGrows(t: seq<Event>, e: Event, start: real)
    requires StartRead(t, start)
    ensures StartRead(t + [e], start)
  {
    var j :| 0 <= j < |t| - 1 && t[j] == Clock(start) && t[j + 1].Evaluated?;
    assert (t + [e])[j] == t[j] && (t + [e])[j + 1] == t[j + 1];
  }

  lemma ClearedGrows(t: seq<Event>, e: Event, start: real, k: nat)
    requires Cleared(t, start, k)
    ensures Cleared(t + [e], start, k)
  {
    assert forall i :: 0 <= i < |t| ==> (t + [e])[i] == t[i];
  }

  lemma WaitedGrows(c: Case, t: seq<Event>, e: Event, start: real, k: nat, due: real)
    requires Waited(c, t, start, k, due)
    ensures Waited(c, t + [e], start, k, due)
  {
    ClearedGrows(t, e, start, k);
    hide Cleared;
    assert forall i :: 0 <= i < |t| ==> (t + [e])[i] == t[i];
  }

  lemma RecoveredGrows(c: Case, t: seq<Event>, e: Event, start: real, k: nat, b: nat)
    requires Recovered(c, t, start, k, b)
    ensures Recovered(c, t + [e], start, k, b)
  {
    ClearedGrows(t, e, start, k);
    hide Cleared, Waited;
    assert (t + [e])[b] == t[b] && (t + [e])[b + 1] == t[b + 1];
    if b != k {
      var due :| Waited(c, t, start, k, due) && t[b].now < due;
      WaitedGrows(c, t, e, start, k, due);
    }
  }

  lemma FirstLook(c: Case, t: seq<Event>, start: real, d: Diagnosis)
    requires |t| > 0 && Cleared(t, start, |t| - 1)
    ensures Cleared(t + [Diagnosed(d)], start, |t| - 1)
    ensures Healthy(d) ==> RecoveredFrom(c, t + [Diagnosed(d)], start, |t| - 1)
  {
    var t' := t + [Diagnosed(d)];
    ClearedGrows(t, Diagnosed(d), start, |t| - 1);
    assert t'[|t|] == Diagnosed(d) && t'[|t| - 1] == t[|t| - 1];
    hide Cleared, Waited;
    if Healthy(d) {
      assert t'[|t| - 1].Clock? by { LastIsClock(t, start); }
      assert Recovered(c, t', start, |t| - 1, |t| - 1);
    }
  }

  lemma LastIsClock(t: seq<Event>, start: real)
    requires |t| > 0 && Cleared(t, start, |t| - 1)
    ensures t[|t| - 1].Clock?
  {
  }

  lemma LaterLook(c: Case, t: seq<Event>, start: real, k: nat, due: real, d: Diagnosis)
    requires k + 2 < |t| - 1 && Waited(c, t, start, k, due) && t[|t| - 1].Clock? && t[|t| - 1].now < due
    ensures Waited(c, t + [Diagnosed(d)], start, k, due)
    ensures Healthy(d) ==> RecoveredFrom(c, t + [Diagnosed(d)], start, |t| - 1)
  {
    var t' := t + [Diagnosed(d)];
    WaitedGrows(c, t, Diagnosed(d), start, k, due);
    assert t'[|t|] == Diagnosed(d) && t'[|t| - 1] == t[|t| - 1];
    assert Cleared(t', start, k);
    hide Cleared, Waited;
    if Healthy(d) { assert Recovered(c, t', start, k, |t| - 1); }
  }

  /** After a look. */
  lemma LookTimed(c: Case, s: State, d: Diagnosis)
    requires Timed(c, s) && Waiting(s.pc, Diagnosed(d))
    ensures Timed(c, Next(c, s, Diagnosed(d)))
  {
    hide Cleared, Waited, RecoveredFrom, Landed, StartRead;
    var n, t := |s.trace|, s.trace + [Diagnosed(d)];
    assert t[n] == Diagnosed(d) && (n > 0 ==> t[n - 1] == s.trace[n - 1]);
    match s.pc
    case Recover(start, left, None) => FirstLook(c, s.trace, start, d);
    case Recover(start, left, Some(due)) =>
      var k: nat :| k + 2 < n - 1 && Waited(c, s.trace, start, k, due);
      LaterLook(c, s.trace, start, k, due, d);
    case _ =>
  }

  lemma FirstReading(t: seq<Event>, start: real, now: real)
    requires |t| > 0 && LetThrough(t[|t| - 1]) && StartRead(t[..|t| - 1], start)
    ensures Cleared(t + [Clock(now)], start, |t|)
  {
    var n, t' := |t|, t + [Clock(now)];
    var j :| 0 <= j < n - 2 && t[..n - 1][j] == Clock(start) && t[..n - 1][j + 1].Evaluated?;
    assert t'[n] == Clock(now) && t'[n - 1] == t[n - 1] && t'[j] == t[j] && t'[j + 1] == t[j + 1];
  }

  lemma DeadlineReading(c: Case, t: seq<Event>, start: real, now: real)
    requires |t| > 1 && Cleared(t, start, |t| - 2) && t[|t| - 1].Diagnosed? && !Healthy(t[|t| - 1].d)
    ensures Waited(c, t + [Clock(now)], start, |t| - 2, now + Left(c, start, t[|t| - 2].now))
  {
    var n, t' := |t|, t + [Clock(now)];
    ClearedGrows(t, Clock(now), start, n - 2);
    assert t'[n] == Clock(now) && t'[n - 1] == t[n - 1] && t'[n - 2] == t[n - 2];
    hide Cleared;
  }

  lemma WaitedIsEarlier(c: Case, t: seq<Event>, start: real, k: nat, due: real)
    requires Waited(c, t, start, k, due)
    ensures k + 2 < |t|
  {
  }

  /** After a reading of the clock. */
  lemma ReadingTimed(c: Case, s: State, now: real)
    requires Timed(c, s) && Waiting(s.pc, Clock(now))
    ensures Timed(c, Next(c, s, Clock(now)))
  {
    hide Cleared, Waited, RecoveredFrom, Landed, StartRead, Left;
    var e, n, t := Clock(now), |s.trace|, s.trace + [Clock(now)];
    assert t[n] == e && (n > 1 ==> t[n - 2] == s.trace[n - 2]);
    match s.pc
    case Remaining(start) =>
      FirstReading(s.trace, start, now);
      assert Left(c, start, now) == if c.budget - (now - start) < 0.0 then 0.0 else c.budget - (now - start) by {
        LeftIs(c, start, now);
      }
    case RecoverArm(start, left) => DeadlineReading(c, s.trace, start, now);
    case RecoverCheck(start, left, due) =>
      var k: nat :| Waited(c, s.trace, start, k, due);
      WaitedGrows(c, s.trace, e, start, k, due);
      WaitedIsEarlier(c, s.trace, start, k, due);
    case _ =>
  }

  lemma LeftIs(c: Case, start: real, now: real)
    ensures Left(c, start, now) == if c.budget - (now - start) < 0.0 then 0.0 else c.budget - (now - start)
  {
  }

  lemma PassTimed(c: Case, s: State, now: real)
    requires Timed(c, s) && TimedPass(c, s) && Inv(c, s) && Waiting(s.pc, Clock(now))
    ensures TimedPass(c, Next(c, s, Clock(now)))
  {
    hide Discipline, PassEarned, SignalLanded, ChainProven, GateResultOf, HealthySince, Landed, HostRootSelected, Gate,
         Cleared, Waited, Recovered, Left;
    var e, n := Clock(now), |s.trace|;
    if s.pc.Final? && s.pc.healthy {
      var k: nat :| Recovered(c, s.trace, s.pc.start, k, n - 2);
      RecoveredGrows(c, s.trace, e, s.pc.start, k, n - 2);
      assert EndsAfter(c, Next(c, s, e), s.pc.start, k, n - 2);
    }
  }

  lemma OtherTimed(c: Case, s: State, e: Event)
    requires Timed(c, s) && Waiting(s.pc, e) && !e.Diagnosed? && !e.Clock?
    ensures Timed(c, Next(c, s, e))
  {
    hide ScaffoldCase, HostRootSelected, Gate, Cleared, Waited, RecoveredFrom, StartRead, Left;
    match e
    case Evaluated(w, available, max) => EvaluatedTimed(c, s, w, available, max);
    case Journal(fired) => JournalTimed(c, s, fired);
    case Teardown(how) => TeardownTimed(c, s, how);
    case _ =>
  }

  lemma EvaluatedTimed(c: Case, s: State, w: World, available: bool, max: int)
    requires Timed(c, s) && s.pc.Evaluate?
    ensures Timed(c, Next(c, s, Evaluated(w, available, max)))
  {
    hide ScaffoldCase, HostRootSelected, Gate, Cleared, Waited, RecoveredFrom, StartRead, Left;
    JustEvaluated(s.trace, Evaluated(w, available, max), s.pc.start);
  }

  lemma JournalTimed(c: Case, s: State, fired: bool)
    requires Timed(c, s) && s.pc.ReadJournal?
    ensures Timed(c, Next(c, s, Journal(fired)))
  {
    hide ScaffoldCase, Cleared, Waited, RecoveredFrom, StartRead, Left;
    StartGrows(s.trace, Journal(fired), s.pc.start);
  }

  lemma TeardownTimed(c: Case, s: State, how: How)
    requires Timed(c, s) && (s.pc.Scaffold? || s.pc.Unwind?)
    ensures Timed(c, Next(c, s, Teardown(how)))
  {
    hide ScaffoldCase, Cleared, Waited, RecoveredFrom, StartRead, Left;
    var n, t := |s.trace|, s.trace + [Teardown(how)];
    assert t[n] == Teardown(how) && t[..n] == s.trace;
  }

  lemma JustEvaluated(t: seq<Event>, e: Event, start: real)
    requires |t| > 0 && t[|t| - 1] == Clock(start) && e.Evaluated?
    ensures StartRead(t + [e], start)
  {
    var t' := t + [e];
    assert t'[|t| - 1] == Clock(start) && t'[|t| - 1 + 1].Evaluated?;
  }

  lemma PassIsTimed(c: Case, s: State, e: Event)
    requires TimedPass(c, s) && Inv(c, s) && Waiting(s.pc, e) && !e.Clock?
    ensures TimedPass(c, Next(c, s, e))
  {
    hide Discipline, PassEarned, SignalLanded, ChainProven, GateResultOf, HealthySince, Landed, HostRootSelected, Gate,
         EndsAfter;
    if s.verdict == PASS && ScaffoldCase(c) && s.pc.Unwind? {
      var start, k: nat, b: nat :| EndsAfter(c, s, start, k, b) && |s.trace| == b + 3;
      PassTornDown(c, s, Next(c, s, e), e, start, k, b);
    }
  }

  lemma PassTornDown(c: Case, s: State, s': State, e: Event, start: real, k: nat, b: nat)
    requires EndsAfter(c, s, start, k, b) && |s.trace| == b + 3 && e.Teardown?
    requires s'.trace == s.trace + [e] && s'.elapsed == s.elapsed
    ensures EndsAfter(c, s', start, k, b)
  {
    RecoveredGrows(c, s.trace, e, start, k, b);
    hide Recovered;
    assert s'.trace[b + 2] == s.trace[b + 2] && s'.trace[b + 3] == e;
  }

  lemma TimedKept(c: Case, s: State, e: Event)
    requires Timed(c, s) && TimedPass(c, s) && Inv(c, s)
    ensures Timed(c, Next(c, s, e)) && TimedPass(c, Next(c, s, e))
  {
    hide Timed, TimedPass, Inv;
    if Waiting(s.pc, e) {
      if e.Clock? {
        ReadingTimed(c, s, e.now);
        PassTimed(c, s, e.now);
      } else {
        PassIsTimed(c, s, e);
        if e.Diagnosed? { LookTimed(c, s, e.d); } else { OtherTimed(c, s, e); }
      }
    }
  }

  lemma {:induction false} AlwaysTimed(c: Case, events: seq<Event>)
    ensures Timed(c, Run(c, events)) && TimedPass(c, Run(c, events))
    decreases |events|
  {
    if events != [] {
      hide Inv, Next, Timed, TimedPass;
      AlwaysTimed(c, events[..|events| - 1]);
      RunKeeps(c, events[..|events| - 1]);
      TimedKept(c, Run(c, events[..|events| - 1]), events[|events| - 1]);
    }
  }

  /** How every passing scaffold run spends its time, and so how it can be late: `k` is the
      first reading after the teardown and `b` the one the healthy look began at. Either
      that was the first look, and the run took what was used up by then plus this look; or
      part of the budget was left, the look began before the deadline that the first look
      had pushed back by its own length, and the run took at most that and the last look. */
  lemma ScaffoldTiming(c: Case, events: seq<Event>) returns (start: real, k: nat, b: nat)
    requires Run(c, events).verdict == PASS && ScaffoldCase(c) && Monotone(Run(c, events).trace)
    ensures var s := Run(c, events);
            && EndsAfter(c, s, start, k, b)
            && var used, look := s.trace[k].now - start, s.trace[b + 2].now - s.trace[b].now;
               && (b == k ==> s.elapsed == used + look)
               && (b != k ==>
                     && used < c.budget && s.trace[k + 1].Diagnosed? && s.trace[k + 2].Clock?
                     && s.elapsed < c.budget + (s.trace[k + 2].now - s.trace[k].now) + look)
  {
    AlwaysTimed(c, events);
    hide Run, Timed;
    var s := Run(c, events);
    start, k, b :| EndsAfter(c, s, start, k, b);
    if b != k {
      var due :| Waited(c, s.trace, start, k, due) && s.trace[b].now < due;
      assert s.trace[k + 2].now <= s.trace[b].now;
    }
  }

  /** The run passed at the first look after the teardown, before which it had used up at
      most `used`, and no look took longer than `most`. */
  ghost predicate PassesAtOnce(c: Case, events: seq<Event>, used: real, most: real) {
    var s := Run(c, events);
    && s.verdict == PASS && Monotone(s.trace) && LooksTakeAtMost(s.trace, most)
    && exists start, k: nat :: EndsAfter(c, s, start, k, k) && s.trace[k].now - start <= used
  }

  /** A run that passes at the first look takes at most `used + most`. */
  lemma AtOnceBound(c: Case, events: seq<Event>, used: real, most: real)
    requires PassesAtOnce(c, events, used, most)
    ensures Run(c, events).elapsed <= used + most
  {
    hide Run, Cleared, Waited, Monotone;
    var s := Run(c, events);
    var start, k: nat :| EndsAfter(c, s, start, k, k) && s.trace[k].now - start <= used;
    LookBound(c, s, start, k, k, most);
  }

  lemma LookBound(c: Case, s: State, start: real, k: nat, b: nat, most: real)
    requires EndsAfter(c, s, start, k, b) && LooksTakeAtMost(s.trace, most)
    ensures s.trace[b + 2].now - s.trace[b].now <= most
  {
    hide Cleared, Waited;
    assert b < |s.trace| - 2;
  }

  /** Every other passing run whose looks take at most `most` stays below the budget plus
      two looks. */
  lemma ScaffoldBounds(c: Case, events: seq<Event>, most: real)
    requires Run(c, events).verdict == PASS && ScaffoldCase(c)
    requires Monotone(Run(c, events).trace) && LooksTakeAtMost(Run(c, events).trace, most)
    ensures Run(c, events).elapsed < c.budget + 2.0 * most || exists used :: PassesAtOnce(c, events, used, most)
  {
    var start, k, b := ScaffoldTiming(c, events);
    hide Run, Recovered, Monotone;
    var s := Run(c, events);
    if b == k {
      assert PassesAtOnce(c, events, s.trace[k].now - start, most);
    } else {
      LookBound(c, s, start, k, b, most);
      SecondIsClock(c, s.trace, start, k, b);
      assert k < |s.trace| - 2;
    }
  }

  lemma SecondIsClock(c: Case, trace: seq<Event>, start: real, k: nat, b: nat)
    requires Recovered(c, trace, start, k, b) && b != k
    ensures k + 2 < |trace| && trace[k].Clock? && trace[k + 1].Diagnosed? && trace[k + 2].Clock?
  {
  }

  // The scripts that meet the bounds.

  /** A case the host-root tier can be scripted through. */
  ghost predicate Scriptable(c: Case, w: World, max: int, sig: Signal) {
    ScaffoldCase(c) && !c.skip && sig in c.expectedSignals && HostRootSelected(Gate(w, true, max))
  }

  /** Up to a teardown of the scaffold after which the case goes on, at time zero. */
  ghost function ToTeardown(w: World, max: int, sig: Signal, how: How): seq<Event> {
    Opening4(sig) + [Evaluated(w, true, max)] + [Journal(true)] + [Teardown(how)]
  }

  lemma AfterTeardown(c: Case, w: World, max: int, sig: Signal, how: How)
    requires Scriptable(c, w, max, sig) && how != Broke
    ensures Run(c, ToTeardown(w, max, sig, how)) ==
            State(Remaining(0.0), FAIL, how == Worked, how != Worked, 0.0, ToTeardown(w, max, sig, how))
  {
    hide Gate, HostRootSelected, Run, Opening4;
    AfterOpening(c, sig);
    var t4 := Opening4(sig);
    RunSnoc(c, t4, Evaluated(w, true, max));
    RunSnoc(c, t4 + [Evaluated(w, true, max)], Journal(true));
    RunSnoc(c, t4 + [Evaluated(w, true, max)] + [Journal(true)], Teardown(how));
  }

  /** The first look, from `m` to `e`, is healthy. */
  ghost function AtOnce(w: World, max: int, sig: Signal, m: real, e: real): seq<Event> {
    ToTeardown(w, max, sig, Worked) + [Clock(m)] + [Diagnosed([])] + [Clock(e)]
  }

  /** The budget is no part of the host-root criterion: whatever was used up by the
      teardown and however long the look took, the run passes. */
  lemma ScaffoldIgnoresBudget(c: Case, w: World, max: int, sig: Signal, m: real, e: real)
    requires Scriptable(c, w, max, sig)
    ensures var s := Run(c, AtOnce(w, max, sig, m, e));
            s.verdict == PASS && s.elapsed == e && s.trace == AtOnce(w, max, sig, m, e)
  {
    hide Run, ToTeardown, Scriptable, Left;
    AfterTeardown(c, w, max, sig, Worked);
    var t := ToTeardown(w, max, sig, Worked);
    RunSnoc(c, t, Clock(m));
    RunSnoc(c, t + [Clock(m)], Diagnosed([]));
    RunSnoc(c, t + [Clock(m)] + [Diagnosed([])], Clock(e));
  }

  lemma AtOnceIsTimed(c: Case, w: World, max: int, sig: Signal, used: real, most: real)
    requires Scriptable(c, w, max, sig) && used >= 0.0 && most >= 0.0
    ensures PassesAtOnce(c, AtOnce(w, max, sig, used, used + most), used, most)
    ensures Run(c, AtOnce(w, max, sig, used, used + most)).elapsed == used + most
  {
    hide Run, Scriptable, AtOnce, EndsAfter, Monotone, LooksTakeAtMost;
    ScaffoldIgnoresBudget(c, w, max, sig, used, used + most);
    AtOnceEnds(c, Run(c, AtOnce(w, max, sig, used, used + most)), w, max, sig, used, most);
  }

  lemma AtOnceEnds(c: Case, s: State, w: World, max: int, sig: Signal, used: real, most: real)
    requires used >= 0.0 && most >= 0.0 && s.trace == AtOnce(w, max, sig, used, used + most) && s.elapsed == used + most
    ensures EndsAfter(c, s, 0.0, 7, 7) && |s.trace| == 10 && s.trace[7].now - 0.0 == used
    ensures Monotone(s.trace) && LooksTakeAtMost(s.trace, most)
  {
    AtOnceIsOrderly(c, w, max, sig, used, most);
    hide AtOnce, Recovered, Monotone, LooksTakeAtMost;
  }

  lemma AtOnceIsOrderly(c: Case, w: World, max: int, sig: Signal, used: real, most: real)
    requires used >= 0.0 && most >= 0.0
    ensures var t := AtOnce(w, max, sig, used, used + most);
            && |t| == 10 && t[7] == Clock(used) && t[9] == Clock(used + most)
            && Monotone(t) && LooksTakeAtMost(t, most) && Recovered(c, t, 0.0, 7, 7)
  {
    var t := AtOnce(w, max, sig, used, used + most);
    assert t == [Diagnosed([]), Injected(true), Diagnosed([sig]), Clock(0.0), Evaluated(w, true, max), Journal(true),
                 Teardown(Worked), Clock(used), Diagnosed([]), Clock(used + most)];
    hide AtOnce, Waited;
    assert t[3] == Clock(0.0) && t[3 + 1].Evaluated?;
    assert Cleared(t, 0.0, 7);
  }

  /** Exactly when a run that recovers at the first look is on time: for all that have used
      at most `used` by the teardown and whose looks take at most `most`, if and only if
      these two fit in the budget. */
  lemma OnTimeIff(c: Case, w: World, max: int, sig: Signal, used: real, most: real)
    requires Scriptable(c, w, max, sig) && used >= 0.0 && most >= 0.0
    ensures (forall events :: PassesAtOnce(c, events, used, most) ==> Run(c, events).elapsed <= c.budget)
       <==> used + most <= c.budget
  {
    hide Run, Scriptable;
    AtOnceIsTimed(c, w, max, sig, used, most);
    hide PassesAtOnce;
    if used + most <= c.budget {
      forall events | PassesAtOnce(c, events, used, most) ensures Run(c, events).elapsed <= c.budget {
        AtOnceBound(c, events, used, most);
      }
    }
  }

  /** The first look, from 0 to `most`, is unhealthy; the healthy one begins at `t`. */
  ghost function AtLast(w: World, max: int, sig: Signal, most: real, t: real): seq<Event> {
    AtFirstLook(w, max, sig, most) + [Clock(t)] + [Diagnosed([])] + [Clock(t + most)]
  }

  /** The other bound is tight as well: a second look may begin at any moment before the
      budget plus one look, and still lets the run pass when it ends. */
  lemma LaterLookPasses(c: Case, w: World, max: int, sig: Signal, most: real, t: real)
    requires Scriptable(c, w, max, sig) && 0.0 <= most <= t < c.budget + most
    ensures var s := Run(c, AtLast(w, max, sig, most, t));
            && s.verdict == PASS && s.elapsed == t + most
            && Monotone(s.trace) && LooksTakeAtMost(s.trace, most)
  {
    hide Run, AtFirstLook, Next, Monotone, LooksTakeAtMost;
    AfterFirstLook(c, w, max, sig, most);
    SecondLook(c, AtFirstLook(w, max, sig, most), most, t);
    AtLastIsOrderly(w, max, sig, most, t);
  }

  /** The first look, from 0 to `most`, is unhealthy. */
  ghost function AtFirstLook(w: World, max: int, sig: Signal, most: real): seq<Event> {
    ToTeardown(w, max, sig, Worked) + [Clock(0.0)] + [Diagnosed([sig])] + [Clock(most)]
  }

  lemma AfterFirstLook(c: Case, w: World, max: int, sig: Signal, most: real)
    requires Scriptable(c, w, max, sig) && 0.0 <= most < c.budget + most
    ensures Run(c, AtFirstLook(w, max, sig, most)) ==
            State(RecoverCheck(0.0, c.budget, most + c.budget), FAIL, true, false, 0.0, AtFirstLook(w, max, sig, most))
  {
    hide Run, ToTeardown, Scriptable;
    AfterTeardown(c, w, max, sig, Worked);
    var t7 := ToTeardown(w, max, sig, Worked);
    RunSnoc(c, t7, Clock(0.0));
    RunSnoc(c, t7 + [Clock(0.0)], Diagnosed([sig]));
    RunSnoc(c, t7 + [Clock(0.0)] + [Diagnosed([sig])], Clock(most));
  }

  lemma SecondLook(c: Case, l: seq<Event>, most: real, t: real)
    requires t < most + c.budget
    requires Run(c, l) == State(RecoverCheck(0.0, c.budget, most + c.budget), FAIL, true, false, 0.0, l)
    ensures var l' := l + [Clock(t)] + [Diagnosed([])] + [Clock(t + most)];
            Run(c, l') == State(Done, PASS, true, false, t + most, l')
  {
    hide Run;
    RunSnoc(c, l, Clock(t));
    RunSnoc(c, l + [Clock(t)], Diagnosed([]));
    RunSnoc(c, l + [Clock(t)] + [Diagnosed([])], Clock(t + most));
  }

  lemma AtLastIsOrderly(w: World, max: int, sig: Signal, most: real, t: real)
    requires 0.0 <= most <= t
    ensures Monotone(AtLast(w, max, sig, most, t)) && LooksTakeAtMost(AtLast(w, max, sig, most, t), most)
  {
    var l := AtLast(w, max, sig, most, t);
    assert l == [Diagnosed([]), Injected(true), Diagnosed([sig]), Clock(0.0), Evaluated(w, true, max), Journal(true),
                 Teardown(Worked), Clock(0.0), Diagnosed([sig]), Clock(most), Clock(t), Diagnosed([]), Clock(t + most)];
    hide *;
    AreReadings(l, most, t);
  }

  lemma AreReadings(l: seq<Event>, most: real, t: real)
    requires 0.0 <= most <= t && |l| == 13
    requires !l[0].Clock? && !l[1].Clock? && !l[2].Clock? && l[3] == Clock(0.0) && !l[4].Clock? && !l[5].Clock? &&
             !l[6].Clock?
    requires l[7] == Clock(0.0) && l[8].Diagnosed? && l[9] == Clock(most) && l[10] == Clock(t) && l[11].Diagnosed?
    requires l[12] == Clock(t + most) && !l[4].Diagnosed?
    ensures Monotone(l) && LooksTakeAtMost(l, most)
  {
  }

  // --------------------------------------------------------------- several cases

  /** `certify`: the cases one after the other; each finished before the next begins. */
  ghost function CertifyTrace(cases: seq<Case>, events: seq<seq<Event>>): seq<Event>
    requires |cases| == |events|
  {
    if cases == [] then []
    else
      var n := |cases| - 1;
      CertifyTrace(cases[..n], events[..n]) + Run(cases[n], events[n]).trace
  }

  /** One fault at a time: in the trace of a whole certification every injection comes right
      after a healthy diagnosis, and between two injections there is a teardown. */
  lemma {:induction false} OneFaultAtATime(cases: seq<Case>, events: seq<seq<Event>>)
    requires |cases| == |events| && forall i :: 0 <= i < |cases| ==> Run(cases[i], events[i]).pc.Done?
    ensures Sequential(CertifyTrace(cases, events))
  {
    hide Run, Sequential;
    if cases == [] {
      NothingIsSequential();
    } else {
      var n := |cases| - 1;
      OneFaultAtATime(cases[..n], events[..n]);
      OneCase(cases[n], events[n]);
      SequentialConcat(CertifyTrace(cases[..n], events[..n]), Run(cases[n], events[n]).trace);
    }
  }

  /** Every injection directly follows a healthy diagnosis and is followed by a teardown
      before the next injection or the end. */
  ghost predicate Sequential(trace: seq<Event>) {
    && (forall i :: 0 <= i < |trace| && trace[i].Injected? ==>
          i >= 1 && trace[i - 1].Diagnosed? && Healthy(trace[i - 1].d) && TornDownFrom(trace, i))
    && (forall i, j :: 0 <= i < j < |trace| && trace[i].Injected? && trace[j].Injected? ==>
        TornDownBetween(trace, i, j))
  }

  ghost predicate TornDownBetween(trace: seq<Event>, i: nat, j: nat) {
    exists k :: i < k < j && k < |trace| && trace[k].Teardown?
  }

  ghost predicate TornDownFrom(trace: seq<Event>, i: nat) { TornDownBetween(trace, i, |trace|) }

  lemma NothingIsSequential()
    ensures Sequential([])
  {
  }

  lemma OneCase(c: Case, events: seq<Event>)
    requires Run(c, events).pc.Done?
    ensures Sequential(Run(c, events).trace)
  {
    hide Run;
    var t := Run(c, events).trace;
    forall i | 0 <= i < |t| && t[i].Injected?
      ensures i == 1 && t[i - 1].Diagnosed? && Healthy(t[i - 1].d) && TornDownFrom(t, i)
    {
      AlwaysTornDown(c, events, i);
    }
  }

  lemma SequentialConcat(a: seq<Event>, b: seq<Event>)
    requires Sequential(a) && Sequential(b)
    ensures Sequential(a + b)
  {
    hide TornDownBetween;
    var t, n := a + b, |a|;
    forall i | 0 <= i < |t| && t[i].Injected?
      ensures i >= 1 && t[i - 1].Diagnosed? && Healthy(t[i - 1].d) && TornDownFrom(t, i)
    {
      if i < n {
        assert t[i] == a[i] && t[i - 1] == a[i - 1];
        Carries(a, [], b, i, n, |t|);
      } else {
        assert t[i] == b[i - n] && t[i - 1] == b[i - n - 1];
        Carries(b, a, [], i - n, |b|, |t|);
      }
    }
    forall i, j | 0 <= i < j < |t| && t[i].Injected? && t[j].Injected? ensures TornDownBetween(t, i, j) {
      if i >= n {
        assert t[i] == b[i - n] && t[j] == b[j - n];
        Carries(b, a, [], i - n, j - n, j);
      } else {
        assert t[i] == a[i];
        if j < n {
          assert t[j] == a[j];
          Carries(a, [], b, i, j, j);
        } else {
          assert TornDownFrom(a, i);
          Carries(a, [], b, i, n, j);
        }
      }
    }
  }

  lemma Carries(part: seq<Event>, before: seq<Event>, after: seq<Event>, i: nat, j: nat, end: nat)
    requires TornDownBetween(part, i, j) && end >= |before| + j
    ensures TornDownBetween(before + part + after, |before| + i, end)
    ensures [] + part + after == part + after && before + part + [] == before + part
  {
    var k :| i < k < j && k < |part| && part[k].Teardown?;
    assert (before + part + after)[|before| + k].Teardown?;
  }
}

/** scripts/deploy/mesh.py: the diagnosers and the fail-closed gate, which diagnoses,
    heals a bounded number of times and re-diagnoses after each attempt. */
module Mesh {
  import opened Text
  import opened Lists

  datatype Signal =
    | NodesUnreadable | NodeNotReady | IstiodLogsUnreadable | IstiodApiUnreachable
    | IstiodUnreadable | IstiodNotReady | IstiodDegraded | IstiodNoEndpoints | Other(name: string)

  /** The signals of one diagnose pass; healthy means none. */
  type Diagnosis = seq<Signal>

  predicate Healthy(d: Diagnosis) { d == [] }

  // ---------------------------------------------------------------- diagnosing

  datatype Probe<T> = Failed | Read(out: T)

  datatype Deployment = Deployment(desired: Option<int>, ready: Option<int>)

  /** What the four kubectl reads returned: node Ready statuses, istiod log lines, the
      parsed istiod Deployment (None when it is not an object), ready endpoint count. */
  datatype Probes = Probes(nodes: Probe<seq<string>>, logs: Probe<seq<string>>,
                           deployment: Probe<Option<Deployment>>, endpoints: Probe<nat>)

  const SMOKING_GUN := ["no route to host", "Unauthenticated", "tokenreviews"]

  predicate SmokingGun(line: string) { exists i :: 0 <= i < |SMOKING_GUN| && Find(line, SMOKING_GUN[i], 0) != -1 }

  function CountSmokingGun(lines: seq<string>): (n: nat)
    ensures n == 0 <==> forall i :: 0 <= i < |lines| ==> !SmokingGun(lines[i])
    ensures n <= |lines|
  {
    if lines == [] then 0 else (if SmokingGun(lines[0]) then 1 else 0) + CountSmokingGun(lines[1..])
  }

  function EvaluateNodes(statuses: seq<string>): Diagnosis {
    if statuses == [] then [NodesUnreadable]
    else if exists i :: 0 <= i < |statuses| && statuses[i] != "True" then [NodeNotReady]
    else []
  }

  function EvaluateReadiness(deployment: Option<Deployment>, endpoints: nat): Diagnosis {
    if deployment.None? || deployment.value.desired.None? then [IstiodUnreadable]
    else
      var desired := deployment.value.desired.value;
      var ready := if deployment.value.ready.Some? then deployment.value.ready.value else 0;
      (if desired < 1 || ready < desired then [IstiodNotReady] else []) +
      (if endpoints < 1 then [IstiodNoEndpoints] else [])
  }

  function DiagnoseMesh(p: Probes): Diagnosis {
    (if p.nodes.Failed? then [NodesUnreadable] else EvaluateNodes(p.nodes.out)) +
    (if p.logs.Failed? then [IstiodLogsUnreadable]
     else if CountSmokingGun(p.logs.out) > 0 then [IstiodApiUnreachable] else []) +
    (if p.deployment.Failed? || p.endpoints.Failed? then [IstiodUnreadable]
     else EvaluateReadiness(p.deployment.out, p.endpoints.out))
  }

  /** A log line that one of the three patterns occurs in. */
  ghost predicate ShowsOutage(line: string) {
    Occurs("no route to host", line) || Occurs("Unauthenticated", line) || Occurs("tokenreviews", line)
  }

  lemma SmokingGunIff(line: string)
    ensures SmokingGun(line) <==> ShowsOutage(line)
  {
    hide OccursAt;
    assert SMOKING_GUN[0] == "no route to host" && SMOKING_GUN[1] == "Unauthenticated" &&
           SMOKING_GUN[2] == "tokenreviews";
    FoundIff(line, SMOKING_GUN[0]);
    FoundIff(line, SMOKING_GUN[1]);
    FoundIff(line, SMOKING_GUN[2]);
    hide Find, Occurs;
  }

  lemma FoundIff(text: string, needle: string)
    ensures Find(text, needle, 0) != -1 <==> Occurs(needle, text)
  {
    if at :| OccursAt(needle, text, at) { assert at >= 0; }
  }

  /** What each signal of a diagnosis says about the four reads. */
  lemma SignalIff(p: Probes, s: Signal)
    ensures var d := DiagnoseMesh(p);
            && (NodesUnreadable in d <==> p.nodes.Failed? || p.nodes.out == [])
            && (NodeNotReady in d <==> p.nodes.Read? && exists i :: 0 <= i < |p.nodes.out| && p.nodes.out[i] != "True")
            && (IstiodLogsUnreadable in d <==> p.logs.Failed?)
            && (IstiodApiUnreachable in d <==>
                  p.logs.Read? && exists i :: 0 <= i < |p.logs.out| && ShowsOutage(p.logs.out[i]))
            && (IstiodUnreadable in d <==>
                  p.deployment.Failed? || p.endpoints.Failed? || p.deployment.out.None?
                  || p.deployment.out.value.desired.None?)
            && (IstiodNotReady in d <==>
                  && IstiodUnreadable !in d
                  && var desired, ready := p.deployment.out.value.desired.value, p.deployment.out.value.ready;
                     desired < 1 || (if ready.Some? then ready.value else 0) < desired)
            && (IstiodNoEndpoints in d <==> IstiodUnreadable !in d && p.endpoints.out == 0)
            && (s in d ==> s in {NodesUnreadable, NodeNotReady, IstiodLogsUnreadable, IstiodApiUnreachable,
                                 IstiodUnreadable, IstiodNotReady, IstiodNoEndpoints})
  {
    hide *;
    var a := NodeSignals(p);
    var b := LogSignals(p);
    var c := ReadinessSignals(p);
    DiagnosedOf(p, a, b, c);
  }

  lemma DiagnosedOf(p: Probes, a: Diagnosis, b: Diagnosis, c: Diagnosis)
    requires a == if p.nodes.Failed? then [NodesUnreadable] else EvaluateNodes(p.nodes.out)
    requires b == if p.logs.Failed? then [IstiodLogsUnreadable]
                  else if CountSmokingGun(p.logs.out) > 0 then [IstiodApiUnreachable] else []
    requires c == if p.deployment.Failed? || p.endpoints.Failed? then [IstiodUnreadable]
                  else EvaluateReadiness(p.deployment.out, p.endpoints.out)
    ensures forall s :: s in DiagnoseMesh(p) <==> s in a || s in b || s in c
  {
    hide EvaluateNodes, EvaluateReadiness, CountSmokingGun;
    assert DiagnoseMesh(p) == a + b + c;
  }

  lemma NodeSignals(p: Probes) returns (d: Diagnosis)
    ensures d == if p.nodes.Failed? then [NodesUnreadable] else EvaluateNodes(p.nodes.out)
    ensures NodesUnreadable in d <==> p.nodes.Failed? || p.nodes.out == []
    ensures NodeNotReady in d <==> p.nodes.Read? && exists i :: 0 <= i < |p.nodes.out| && p.nodes.out[i] != "True"
    ensures forall s :: s in d ==> s in {NodesUnreadable, NodeNotReady}
  {
    d := if p.nodes.Failed? then [NodesUnreadable] else EvaluateNodes(p.nodes.out);
  }

  lemma LogSignals(p: Probes) returns (d: Diagnosis)
    ensures d == if p.logs.Failed? then [IstiodLogsUnreadable]
                 else if CountSmokingGun(p.logs.out) > 0 then [IstiodApiUnreachable] else []
    ensures IstiodLogsUnreadable in d <==> p.logs.Failed?
    ensures IstiodApiUnreachable in d <==>
            p.logs.Read? && exists i :: 0 <= i < |p.logs.out| && ShowsOutage(p.logs.out[i])
    ensures forall s :: s in d ==> s in {IstiodLogsUnreadable, IstiodApiUnreachable}
  {
    d := if p.logs.Failed? then [IstiodLogsUnreadable]
         else if CountSmokingGun(p.logs.out) > 0 then [IstiodApiUnreachable] else [];
    hide SmokingGun, ShowsOutage;
    if p.logs.Read? {
      forall i | 0 <= i < |p.logs.out| ensures SmokingGun(p.logs.out[i]) <==> ShowsOutage(p.logs.out[i]) {
        SmokingGunIff(p.logs.out[i]);
      }
    }
  }

  lemma ReadinessSignals(p: Probes) returns (d: Diagnosis)
    ensures d == if p.deployment.Failed? || p.endpoints.Failed? then [IstiodUnreadable]
                 else EvaluateReadiness(p.deployment.out, p.endpoints.out)
    ensures IstiodUnreadable in d <==>
            || p.deployment.Failed? || p.endpoints.Failed?
            || p.deployment.out.None? || p.deployment.out.value.desired.None?
    ensures IstiodNotReady in d <==>
            && IstiodUnreadable !in d
            && var desired, ready := p.deployment.out.value.desired.value, p.deployment.out.value.ready;
               desired < 1 || (if ready.Some? then ready.value else 0) < desired
    ensures IstiodNoEndpoints in d <==> IstiodUnreadable !in d && p.endpoints.out == 0
    ensures forall s :: s in d ==> s in {IstiodUnreadable, IstiodNotReady, IstiodNoEndpoints}
  {
    d := if p.deployment.Failed? || p.endpoints.Failed? then [IstiodUnreadable]
         else EvaluateReadiness(p.deployment.out, p.endpoints.out);
  }

  /** Fail closed: the mesh is healthy only on complete positive evidence. */
  lemma HealthyMeansEvidence(p: Probes)
    ensures Healthy(DiagnoseMesh(p)) <==>
      && p.nodes.Read? && p.nodes.out != [] && (forall i :: 0 <= i < |p.nodes.out| ==> p.nodes.out[i] == "True")
      && p.logs.Read? && (forall i :: 0 <= i < |p.logs.out| ==> !ShowsOutage(p.logs.out[i]))
      && p.deployment.Read? && p.endpoints.Read? && p.endpoints.out >= 1
      && p.deployment.out.Some? && p.deployment.out.value.desired.Some? && p.deployment.out.value.ready.Some?
      && 1 <= p.deployment.out.value.desired.value <= p.deployment.out.value.ready.value
  {
    var d := DiagnoseMesh(p);
    if d != [] { SignalIff(p, d[0]); } else { SignalIff(p, NodesUnreadable); }
    hide DiagnoseMesh, ShowsOutage;
    assert d != [] ==> d[0] in d;
  }

  // ------------------------------------------------------------------ the gate

  datatype Action = RestartIstiod | HostResettle | HostResettleTimeout | HostResettleRefused | NoAction | HealerError

  datatype Attempt = Attempt(performed: bool, action: Action)

  /** One call of the healer: it raised, or it reported an attempt. */
  datatype Healing = Raised | Did(attempt: Attempt)

  datatype Outcome = HEALTHY | HEALED | UNSAFE

  datatype GateResult = GateResult(outcome: Outcome, initial: Diagnosis, attempts: seq<Attempt>, final: Diagnosis)

  predicate Safe(r: GateResult) { r.outcome == HEALTHY || r.outcome == HEALED }

  /** The k-th diagnosis and the k-th healer call of a run; any pair of functions, so any
      behaviour of cluster and healer, however they depend on each other. */
  datatype World = World(diagnosis: nat -> Diagnosis, healing: nat -> Healing)

  /** The heal loop from attempt `i` on. */
  function HealFrom(w: World, max: int, i: nat, attempts: seq<Attempt>): GateResult
    decreases max - i
  {
    if i >= max then GateResult(UNSAFE, w.diagnosis(0), attempts, w.diagnosis(i))
    else match w.healing(i)
      case Raised => GateResult(UNSAFE, w.diagnosis(0), attempts + [Attempt(false, HealerError)], w.diagnosis(i))
      case Did(a) =>
        if Healthy(w.diagnosis(i + 1)) then GateResult(HEALED, w.diagnosis(0), attempts + [a], w.diagnosis(i + 1))
        else HealFrom(w, max, i + 1, attempts + [a])
  }

  function Gate(w: World, available: bool, max: int): GateResult {
    var initial := w.diagnosis(0);
    if Healthy(initial) then GateResult(HEALTHY, initial, [], initial)
    else if !available then GateResult(UNSAFE, initial, [], initial)
    else HealFrom(w, max, 0, [])
  }

  function Triangle(k: nat): nat { k * (k + 1) / 2 }

  /** What `k` completed attempts have slept. */
  function TotalBackoff(backoff: real, k: nat): real { backoff * Triangle(k) as real }

  /** The first `k` attempts ran on unhealthy diagnoses and did not raise. */
  ghost predicate Persisted(w: World, k: nat) {
    (forall j :: 0 <= j < k ==> w.healing(j).Did?) && (forall j :: 0 <= j < k ==> !Healthy(w.diagnosis(j)))
  }

  /** `MeshGate.evaluate`, with the backoff it slept and the diagnoses it passed to the
      healer: only unhealthy ones, the latest each time, and the k-th sleep is k backoffs. */
  method Evaluate(w: World, available: bool, max: int, backoff: real)
    returns (r: GateResult, slept: real, healed: seq<Diagnosis>)
    ensures r == Gate(w, available, max)
    ensures |healed| == |r.attempts|
    ensures forall j :: 0 <= j < |healed| ==> healed[j] == w.diagnosis(j) && !Healthy(healed[j])
    ensures slept == TotalBackoff(backoff, Completed(w, r))
  {
    hide TotalBackoff;
    healed, slept := [], 0.0;
    BackoffStep(backoff, 0);
    var initial := w.diagnosis(0);
    if Healthy(initial) { return GateResult(HEALTHY, initial, [], initial), 0.0, []; }
    if !available { return GateResult(UNSAFE, initial, [], initial), 0.0, []; }
    var attempts: seq<Attempt> := [];
    var latest := initial;
    var i := 0;
    while i < max
      invariant 0 <= i && (i <= max || i == 0)
      invariant |attempts| == |healed| == i
      invariant latest == w.diagnosis(i) && !Healthy(latest)
      invariant forall j :: 0 <= j < i ==> healed[j] == w.diagnosis(j) && !Healthy(healed[j])
      invariant forall j :: 0 <= j < i ==> w.healing(j) == Did(attempts[j])
      invariant HealFrom(w, max, 0, []) == HealFrom(w, max, i, attempts)
      invariant slept == TotalBackoff(backoff, i)
    {
      healed := healed + [latest];
      match w.healing(i) {
        case Raised =>
          attempts := attempts + [Attempt(false, HealerError)];
          return GateResult(UNSAFE, initial, attempts, latest), slept, healed;
        case Did(attempt) =>
          attempts := attempts + [attempt];
          BackoffStep(backoff, i);
          slept := slept + backoff * (i + 1) as real;
          latest := w.diagnosis(i + 1);
          if Healthy(latest) {
            return GateResult(HEALED, initial, attempts, latest), slept, healed;
          }
      }
      i := i + 1;
    }
    return GateResult(UNSAFE, initial, attempts, latest), slept, healed;
  }

  lemma BackoffStep(backoff: real, i: nat)
    ensures TotalBackoff(backoff, 0) == 0.0
    ensures TotalBackoff(backoff, i) + backoff * (i + 1) as real == TotalBackoff(backoff, i + 1)
  {
    assert Triangle(i + 1) == Triangle(i) + (i + 1);
  }

  /** Healer calls that returned. */
  function Completed(w: World, r: GateResult): nat {
    if r.attempts != [] && w.healing(|r.attempts| - 1).Raised? then |r.attempts| - 1 else |r.attempts|
  }

  /** The loop names the first healthy re-diagnosis, within the cap, and nothing else. */
  lemma {:induction false} HealFromIs(w: World, max: int, i: nat, attempts: seq<Attempt>, k: nat)
    requires |attempts| == i && Persisted(w, i) && !Healthy(w.diagnosis(i)) && i <= k
    ensures var r := HealFrom(w, max, i, attempts);
            && r.initial == w.diagnosis(0)
            && i <= |r.attempts| && r.attempts[..i] == attempts
            && (r.outcome == HEALED || r.outcome == UNSAFE)
            && (r.outcome == HEALED && |r.attempts| == k <==>
                i < k <= max && Persisted(w, k) && Healthy(w.diagnosis(k)))
            && (r.outcome == HEALED ==> i < |r.attempts| <= max)
            && (r.outcome == HEALED ==> r.final == w.diagnosis(|r.attempts|) && Healthy(r.final))
            && (r.outcome == UNSAFE ==> !Healthy(r.final))
    decreases max - i
  {
    if i < max && w.healing(i).Did? && !Healthy(w.diagnosis(i + 1)) {
      var more := attempts + [w.healing(i).attempt];
      if k > i {
        HealFromIs(w, max, i + 1, more, k);
      } else {
        HealFromIs(w, max, i + 1, more, i + 1);
      }
    }
  }

  /** The gate's verdict, for every sequence of probe results and every healer: it lets the
      deploy proceed only on a healthy final diagnosis; HEALTHY means healthy at once;
      HEALED with k attempts means exactly that the k-th re-diagnosis is the first healthy
      one, within the cap, after k attempts none of which raised. */
  lemma GateVerdict(w: World, available: bool, max: int, k: nat)
    ensures var r := Gate(w, available, max);
            && (Safe(r) <==> Healthy(r.final))
            && (r.outcome == HEALTHY <==> Healthy(w.diagnosis(0)))
            && (r.outcome == HEALED && |r.attempts| == k <==>
                  available && 1 <= k <= max && Persisted(w, k) && Healthy(w.diagnosis(k)))
            && (r.outcome == HEALED ==> 1 <= |r.attempts| <= max && r.final == w.diagnosis(|r.attempts|))
  {
    if !Healthy(w.diagnosis(0)) && available {
      HealFromIs(w, max, 0, [], k);
    } else {
      assert k >= 1 && Persisted(w, k) ==> !Healthy(w.diagnosis(0));
    }
  }

  /** What the gate reports of the healer: for each call, in order, what the healer said, or
      that it raised; it raised at the last of them at most; and an unsafe run has called
      until it raised or the cap was reached. */
  lemma AttemptsAre(w: World, available: bool, max: int)
    ensures var r := Gate(w, available, max);
            && r.initial == w.diagnosis(0)
            && (Healthy(w.diagnosis(0)) || !available ==> r.attempts == [])
            && (forall j :: 0 <= j < |r.attempts| ==>
                  r.attempts[j] == match w.healing(j)
                                   case Raised => Attempt(false, HealerError)
                                   case Did(a) => a)
            && (forall j :: 0 <= j < |r.attempts| - 1 ==> w.healing(j).Did?)
            && (available && r.outcome == UNSAFE && (r.attempts == [] || w.healing(|r.attempts| - 1).Did?) ==>
                  |r.attempts| == if max > 0 then max else 0)
  {
    if !Healthy(w.diagnosis(0)) && available { AttemptsFrom(w, max, 0, []); }
  }

  ghost predicate Reported(w: World, attempts: seq<Attempt>) {
    forall j :: 0 <= j < |attempts| ==>
                  attempts[j] == match w.healing(j)
                                 case Raised => Attempt(false, HealerError)
                                 case Did(a) => a
  }

  lemma {:induction false} AttemptsFrom(w: World, max: int, i: nat, attempts: seq<Attempt>)
    requires |attempts| == i && Reported(w, attempts) && forall j :: 0 <= j < i ==> w.healing(j).Did?
    requires i <= max || i == 0
    ensures var r := HealFrom(w, max, i, attempts);
            && r.initial == w.diagnosis(0) && Reported(w, r.attempts)
            && (forall j :: 0 <= j < |r.attempts| - 1 ==> w.healing(j).Did?)
            && (r.outcome == UNSAFE && (r.attempts == [] || w.healing(|r.attempts| - 1).Did?) ==>
                  |r.attempts| == if max > 0 then max else 0)
    decreases max - i
  {
    if i < max && w.healing(i).Did? && !Healthy(w.diagnosis(i + 1)) {
      AttemptsFrom(w, max, i + 1, attempts + [w.healing(i).attempt]);
    }
  }

  /** Two healers that raise at the same calls, whatever they claim to have performed. */
  ghost predicate SameRaises(w: World, v: World) {
    forall k :: w.diagnosis(k) == v.diagnosis(k) && w.healing(k).Raised? == v.healing(k).Raised?
  }

  lemma {:induction false} HealFromIgnoresClaims(w: World, v: World, max: int, i: nat, a: seq<Attempt>, b: seq<Attempt>)
    requires SameRaises(w, v) && |a| == |b|
    ensures var r, q := HealFrom(w, max, i, a), HealFrom(v, max, i, b);
            r.outcome == q.outcome && r.final == q.final && |r.attempts| == |q.attempts|
    decreases max - i
  {
    assert w.diagnosis(i) == v.diagnosis(i) && w.diagnosis(i + 1) == v.diagnosis(i + 1) &&
           w.diagnosis(0) == v.diagnosis(0);
    assert w.healing(i).Raised? == v.healing(i).Raised?;
    if i < max && w.healing(i).Did? {
      HealFromIgnoresClaims(w, v, max, i + 1, a + [w.healing(i).attempt], b + [v.healing(i).attempt]);
    }
  }

  /** The gate trusts its own re-diagnosis, never the healer's `performed` flag or action. */
  lemma GateIgnoresClaims(w: World, v: World, available: bool, max: int)
    requires SameRaises(w, v)
    ensures var r, q := Gate(w, available, max), Gate(v, available, max);
            r.outcome == q.outcome && r.final == q.final && |r.attempts| == |q.attempts|
  {
    assert w.diagnosis(0) == v.diagnosis(0);
    HealFromIgnoresClaims(w, v, max, 0, [], []);
  }
}

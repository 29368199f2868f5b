/** scripts/deploy/mesh.py: the two-tier healer. The host-root tier hands one request file
    to a root unit and polls for its verdict; the RBAC tier restarts istiod. */
module MeshHealer {
  import opened Mesh
  import opened Lists

  /** The signals the root unit may act on. */
  predicate HostRoot(s: Signal) { s == NodeNotReady || s == NodesUnreadable || s == IstiodApiUnreachable }

  /** The signals an in-cluster istiod restart may fix. */
  predicate Rbac(s: Signal) { s == IstiodNotReady || s == IstiodDegraded || s == IstiodNoEndpoints }

  function First(d: Diagnosis, p: Signal -> bool): (r: Option<Signal>)
    ensures r.Some? ==> r.value in d && p(r.value)
    ensures r.None? ==> forall s :: s in d ==> !p(s)
  {
    if d == [] then None else if p(d[0]) then Some(d[0]) else First(d[1..], p)
  }

  datatype Request = Request(id: nat, signal: Signal)

  /** A file holds a whole payload or a torn prefix of one. */
  datatype File = Whole(request: Request) | Torn(request: Request)

  datatype Write = Written | WriteFailed(leftTorn: bool)

  /** One look for the result file: none yet, a result that says whether it performed, or a
      file that cannot be read. */
  datatype Look = Missing | Result(performed: bool) | ReadFailed

  /** What the host does during one heal call; `verdict(k)` is the k-th look. */
  datatype Host = Host(installed: bool, mkdir: bool, write: Write, replace: bool, unlink: bool,
                       verdict: nat -> Look, restart: bool)

  // ------------------------------------------------------------ the verdict poll

  /** What `n` misses have waited. */
  function Waited(poll: real, n: nat): real { n as real * poll }

  /** After `n` misses the wait stops: its time is up, or the next look finds something. */
  ghost predicate StopsAt(verdict: nat -> Look, timeout: real, poll: real, n: nat) {
    Waited(poll, n) >= timeout || !verdict(n).Missing?
  }

  ghost predicate WaitEnds(verdict: nat -> Look, timeout: real, poll: real) {
    exists n: nat :: StopsAt(verdict, timeout, poll, n)
  }

  /** The wait is bounded by a positive poll interval; without one, only a host that answers
      ends it. */
  lemma WaitEndsIff(verdict: nat -> Look, timeout: real, poll: real)
    ensures WaitEnds(verdict, timeout, poll) <==>
            poll > 0.0 || timeout <= 0.0 || exists n: nat :: !verdict(n).Missing?
  {
    if timeout <= 0.0 {
      assert StopsAt(verdict, timeout, poll, 0);
    } else if poll > 0.0 {
      var q := timeout / poll;
      var n := q.Floor + 1;
      Grows(q, n as real, poll);
      assert q * poll == timeout;
      assert StopsAt(verdict, timeout, poll, n);
    } else if n: nat :| !verdict(n).Missing? {
      assert StopsAt(verdict, timeout, poll, n);
    } else if n: nat :| StopsAt(verdict, timeout, poll, n) {
      Grows(poll, 0.0, n as real);
    }
  }

  lemma Grows(a: real, b: real, c: real)
    requires a <= b && c >= 0.0
    ensures a * c <= b * c
  {
  }

  /** The first such `n`. */
  ghost function Misses(verdict: nat -> Look, timeout: real, poll: real): (n: nat)
    requires WaitEnds(verdict, timeout, poll)
    ensures StopsAt(verdict, timeout, poll, n) && forall j: nat :: j < n ==> !StopsAt(verdict, timeout, poll, j)
  {
    var n: nat :| StopsAt(verdict, timeout, poll, n);
    FirstStop(verdict, timeout, poll, n)
  }

  ghost function FirstStop(verdict: nat -> Look, timeout: real, poll: real, n: nat): (first: nat)
    requires StopsAt(verdict, timeout, poll, n)
    ensures StopsAt(verdict, timeout, poll, first)
    ensures forall j: nat :: j < first ==> !StopsAt(verdict, timeout, poll, j)
    decreases n
  {
    if j: nat :| j < n && StopsAt(verdict, timeout, poll, j) then FirstStop(verdict, timeout, poll, j) else n
  }

  /** What the call ends with when `k` looks have already found nothing. */
  function PollFrom(verdict: nat -> Look, timeout: real, poll: real, k: nat): Healing
    requires WaitEnds(verdict, timeout, poll) && k <= Misses(verdict, timeout, poll)
    decreases Misses(verdict, timeout, poll) - k
  {
    if Waited(poll, k) >= timeout then Did(Attempt(false, HostResettleTimeout))
    else match verdict(k)
      case Result(performed) => Did(Attempt(performed, HostResettle))
      case ReadFailed => Raised
      case Missing => PollFrom(verdict, timeout, poll, k + 1)
  }

  /** The wait: looks `poll` apart, as long as their time is below the timeout; it stops at
      the first file, raises when that cannot be read, and reports a timeout only when every
      look missed. */
  method AwaitVerdict(verdict: nat -> Look, timeout: real, poll: real) returns (h: Healing, looks: nat)
    requires WaitEnds(verdict, timeout, poll)
    ensures h == PollFrom(verdict, timeout, poll, 0)
    ensures looks > 0 ==> Waited(poll, looks - 1) < timeout
    ensures forall j :: 0 <= j < looks - 1 ==> verdict(j).Missing?
    ensures h.Raised? <==> looks > 0 && verdict(looks - 1).ReadFailed?
    ensures h.Did? ==> h.attempt.action == HostResettle || h.attempt.action == HostResettleTimeout
    ensures h.Did? && h.attempt.action == HostResettle ==>
              looks > 0 && verdict(looks - 1) == Result(h.attempt.performed)
    ensures h.Did? && h.attempt.action == HostResettleTimeout ==>
              && !h.attempt.performed && Waited(poll, looks) >= timeout
              && forall j :: 0 <= j < looks ==> verdict(j).Missing?
  {
    looks := 0;
    var waited := 0.0;
    OneMoreMiss(poll, 0);
    hide Waited;
    while waited < timeout
      invariant waited == Waited(poll, looks) && looks <= Misses(verdict, timeout, poll)
      invariant looks > 0 ==> Waited(poll, looks - 1) < timeout
      invariant forall j :: 0 <= j < looks ==> verdict(j).Missing?
      invariant PollFrom(verdict, timeout, poll, 0) == PollFrom(verdict, timeout, poll, looks)
      decreases Misses(verdict, timeout, poll) - looks
    {
      var found := verdict(looks);
      looks := looks + 1;
      match found {
        case Result(performed) => return Did(Attempt(performed, HostResettle)), looks;
        case ReadFailed => return Raised, looks;
        case Missing =>
      }
      assert !StopsAt(verdict, timeout, poll, looks - 1);
      OneMoreMiss(poll, looks - 1);
      waited := waited + poll;
    }
    return Did(Attempt(false, HostResettleTimeout)), looks;
  }

  lemma OneMoreMiss(poll: real, n: nat)
    ensures Waited(poll, 0) == 0.0 && Waited(poll, n) + poll == Waited(poll, n + 1)
  {
  }

  /** The wait raises exactly when the first file it finds in time cannot be read. */
  lemma {:induction false} PollRaisesIff(verdict: nat -> Look, timeout: real, poll: real, k: nat)
    requires WaitEnds(verdict, timeout, poll) && k <= Misses(verdict, timeout, poll)
    ensures PollFrom(verdict, timeout, poll, k).Raised? <==> FoundUnreadable(verdict, timeout, poll)
    ensures var h := PollFrom(verdict, timeout, poll, k);
            h.Did? ==> h.attempt.action == HostResettle || h.attempt.action == HostResettleTimeout
    decreases Misses(verdict, timeout, poll) - k
  {
    var n := Misses(verdict, timeout, poll);
    if k < n {
      assert !StopsAt(verdict, timeout, poll, k);
      PollRaisesIff(verdict, timeout, poll, k + 1);
    } else {
      if FoundUnreadable(verdict, timeout, poll) {
        var m: nat :| FirstIsUnreadable(verdict, timeout, poll, m);
        assert StopsAt(verdict, timeout, poll, m) && m == n;
      }
      assert PollFrom(verdict, timeout, poll, n).Raised? ==> FirstIsUnreadable(verdict, timeout, poll, n);
    }
  }

  /** The first file found in time cannot be read. */
  ghost predicate FoundUnreadable(verdict: nat -> Look, timeout: real, poll: real) {
    exists n: nat :: FirstIsUnreadable(verdict, timeout, poll, n)
  }

  ghost predicate FirstIsUnreadable(verdict: nat -> Look, timeout: real, poll: real, n: nat) {
    && Waited(poll, n) < timeout && verdict(n).ReadFailed?
    && forall j: nat :: j < n ==> !StopsAt(verdict, timeout, poll, j)
  }

  // --------------------------------------------------------------- one heal call

  /** What one heal call reports and what it did to the world. */
  datatype Effect = Effect(healing: Healing, published: Option<Signal>, restarted: Option<Signal>)

  function Restart(host: Host, s: Signal): Effect {
    Effect(Did(Attempt(host.restart, RestartIstiod)), None, if host.restart then Some(s) else None)
  }

  const NOTHING := Effect(Did(Attempt(false, NoAction)), None, None)

  predicate Publishes(host: Host) { host.mkdir && host.write.Written? && host.replace }

  /** Root cause first: an installed host-root trigger owns the call; otherwise an RBAC
      signal gets the in-cluster restart. */
  function HealEffect(host: Host, timeout: real, poll: real, d: Diagnosis): Effect
    requires WaitEnds(host.verdict, timeout, poll)
  {
    var root, rbac := First(d, HostRoot), First(d, Rbac);
    if root.Some? && host.installed then
      if Publishes(host) then Effect(PollFrom(host.verdict, timeout, poll, 0), root, None)
      else Effect(Raised, None, None)
    else if rbac.Some? then Restart(host, rbac.value)
    else NOTHING
  }

  /** When a heal call raises: with a host-root signal and the trigger installed, if the
      request could not be written, or if it could and the verdict cannot be read. */
  lemma HealRaisesIff(host: Host, timeout: real, poll: real, d: Diagnosis)
    requires WaitEnds(host.verdict, timeout, poll)
    ensures var e := HealEffect(host, timeout, poll, d);
            && (e.healing.Raised? <==>
                  && host.installed && (exists s :: s in d && HostRoot(s))
                  && (!Publishes(host) || FoundUnreadable(host.verdict, timeout, poll)))
            && (e.healing.Raised? ==> (e.published.Some? <==> Publishes(host)) && e.restarted.None?)
  {
    hide PollFrom, FoundUnreadable;
    PollRaisesIff(host.verdict, timeout, poll, 0);
  }

  /** What one heal call does, with the signals of each tier spelled out. With a host-root
      signal and the trigger installed the call is the root unit's: a request for one of
      these signals is published, unless that fails, and istiod is not restarted. Otherwise
      an RBAC signal means a restart, attempted for one of them and reported as it went;
      with neither, nothing. */
  lemma HealIs(host: Host, timeout: real, poll: real, d: Diagnosis)
    requires WaitEnds(host.verdict, timeout, poll)
    ensures var e := HealEffect(host, timeout, poll, d);
            var roots := set s | s in d && s in {NodeNotReady, NodesUnreadable, IstiodApiUnreachable};
            var rbacs := set s | s in d && s in {IstiodNotReady, IstiodDegraded, IstiodNoEndpoints};
            if roots != {} && host.installed then
              && e.restarted.None?
              && (e.published.Some? <==> host.mkdir && host.write.Written? && host.replace)
              && (e.published.Some? ==> e.published.value in roots)
              && (e.healing.Did? ==>
                    e.published.Some? && e.healing.attempt.action in {HostResettle, HostResettleTimeout})
            else if rbacs != {} then
              && e.published.None? && e.healing == Did(Attempt(host.restart, RestartIstiod))
              && (e.restarted.Some? <==> host.restart) && (e.restarted.Some? ==> e.restarted.value in rbacs)
            else e == Effect(Did(Attempt(false, NoAction)), None, None)
  {
    hide PollFrom;
    PollRaisesIff(host.verdict, timeout, poll, 0);
    var roots := set s | s in d && s in {NodeNotReady, NodesUnreadable, IstiodApiUnreachable};
    var rbacs := set s | s in d && s in {IstiodNotReady, IstiodDegraded, IstiodNoEndpoints};
    assert forall s :: s in d ==> (HostRoot(s) <==> s in roots) && (Rbac(s) <==> s in rbacs);
    if s :| s in roots { assert s in d && HostRoot(s); }
    if s :| s in rbacs { assert s in d && Rbac(s); }
  }

  class PrivilegedHealer {
    const timeout: real
    const poll: real
    var tmp: map<nat, File>       // files beside the watched directory
    var requests: map<nat, File>  // the watched directory
    var restarts: seq<Signal>
    ghost var seen: seq<map<nat, File>>  // the watched directory after each file operation

    /** Every file that is or ever was visible is whole and asks for a whitelisted signal. */
    ghost predicate Valid()
      reads this
    {
      Vetted(requests) && forall i :: 0 <= i < |seen| ==> Vetted(seen[i])
    }

    constructor (timeout: real, poll: real)
      ensures Valid() && this.timeout == timeout && this.poll == poll && requests == map[] && restarts == []
    {
      this.timeout, this.poll := timeout, poll;
      tmp, requests, restarts, seen := map[], map[], [], [];
    }

    /** `_publish_request`: write beside the watched directory, then rename into it. On any
        failure the temporary file is removed, unless removing it fails as well. */
    method PublishRequest(request: Request, host: Host) returns (ok: bool)
      requires Valid() && HostRoot(request.signal)
      modifies this`tmp, this`requests, this`seen
      ensures Valid() && old(seen) <= seen
      ensures ok <==> host.write.Written? && host.replace
      ensures requests == if ok then old(requests)[request.id := Whole(request)] else old(requests)
      ensures ok || host.unlink ==> tmp == old(tmp) - {request.id}
      ensures tmp - {request.id} == old(tmp) - {request.id}
    {
      if host.write.WriteFailed? {
        if host.write.leftTorn { tmp := tmp[request.id := Torn(request)]; }
        seen := seen + [requests];
      } else {
        tmp := tmp[request.id := Torn(request)];  // mid-write
        seen := seen + [requests];
        tmp := tmp[request.id := Whole(request)];
        seen := seen + [requests];
        if host.replace {
          tmp, requests := tmp - {request.id}, requests[request.id := tmp[request.id]];
          seen := seen + [requests];
          return true;
        }
      }
      if host.unlink { tmp := tmp - {request.id}; }
      return false;
    }

    /** `_restart_istiod`. */
    method RestartIstiodFor(s: Signal, host: Host) returns (a: Attempt)
      modifies this`restarts
      ensures a == Attempt(host.restart, RestartIstiod)
      ensures restarts == if host.restart then old(restarts) + [s] else old(restarts)
    {
      if host.restart { restarts := restarts + [s]; }
      a := Attempt(host.restart, RestartIstiod);
    }

    /** `_trigger_host_resettle`: the only method that crosses the privilege boundary. */
    method TriggerHostResettle(s: Signal, id: nat, host: Host) returns (h: Healing)
      requires Valid() && WaitEnds(host.verdict, timeout, poll)
      modifies this`tmp, this`requests, this`seen
      ensures Valid() && old(seen) <= seen
      ensures !HostRoot(s) ==> h == Did(Attempt(false, HostResettleRefused)) && requests == old(requests)
      ensures HostRoot(s) && !host.installed ==> h == Did(Attempt(false, NoAction)) && requests == old(requests)
      ensures HostRoot(s) && host.installed && Publishes(host) ==>
                && h == PollFrom(host.verdict, timeout, poll, 0)
                && requests == old(requests)[id := Whole(Request(id, s))]
      ensures HostRoot(s) && host.installed && !Publishes(host) ==> h == Raised && requests == old(requests)
    {
      if !HostRoot(s) { return Did(Attempt(false, HostResettleRefused)); }
      if !host.installed { return Did(Attempt(false, NoAction)); }
      if !host.mkdir { return Raised; }
      var ok := PublishRequest(Request(id, s), host);
      if !ok { return Raised; }
      var verdict, _ := AwaitVerdict(host.verdict, timeout, poll);
      return verdict;
    }

    /** `heal`: its report, the request it published and the restart it made are exactly
        those of HealEffect. */
    method Heal(d: Diagnosis, id: nat, host: Host) returns (h: Healing)
      requires Valid() && WaitEnds(host.verdict, timeout, poll)
      modifies this`tmp, this`requests, this`seen, this`restarts
      ensures Valid() && old(seen) <= seen
      ensures var e := HealEffect(host, timeout, poll, d);
              && h == e.healing
              && requests == (if e.published.Some? then old(requests)[id := Whole(Request(id, e.published.value))]
                              else old(requests))
              && restarts == (if e.restarted.Some? then old(restarts) + [e.restarted.value] else old(restarts))
    {
      hide PollFrom;
      var root, rbac := First(d, HostRoot), First(d, Rbac);
      var unfired := Did(Attempt(false, NoAction));
      if root.Some? {
        h := TriggerHostResettle(root.value, id, host);
        PollRaisesIff(host.verdict, timeout, poll, 0);
        if h.Raised? || h.attempt.action != NoAction { return; }
        unfired := h;
      }
      if rbac.Some? {
        var a := RestartIstiodFor(rbac.value, host);
        return Did(a);
      }
      return unfired;
    }
  }

  ghost predicate Vetted(dir: map<nat, File>) {
    forall id :: id in dir ==> dir[id].Whole? && HostRoot(dir[id].request.signal)
  }

  // ------------------------------------------------------- whole runs of the gate

  /** Every wait of the run ends. */
  ghost predicate AllEnd(host: nat -> Host, timeout: real, poll: real) {
    forall k :: WaitEnds(host(k).verdict, timeout, poll)
  }

  /** A run of the gate with this healer: the k-th heal call sees the k-th diagnosis. */
  function WithHealer(diagnosis: nat -> Diagnosis, host: nat -> Host, timeout: real, poll: real): World
    requires AllEnd(host, timeout, poll)
  {
    World(diagnosis, (k: nat) => HealEffect(host(k), timeout, poll, diagnosis(k)).healing)
  }

  const UNREADABLE := Host(true, true, Written, true, true, k => ReadFailed, true)

  /** The input: the request is published, the verdict arrives but cannot be read, and the
      run ends UNSAFE at the first attempt, whatever the root unit did. */
  lemma UnreadableIsUnsafe(d: Diagnosis, timeout: real, poll: real, max: int)
    requires timeout > 0.0 && max > 0 && exists s :: s in d && HostRoot(s)
    ensures WaitEnds(UNREADABLE.verdict, timeout, poll) && AllEnd(_ => UNREADABLE, timeout, poll)
    ensures var e := HealEffect(UNREADABLE, timeout, poll, d);
            && e == Effect(Raised, First(d, HostRoot), None) && e.published.Some?
            && Gate(WithHealer(_ => d, _ => UNREADABLE, timeout, poll), true, max) ==
               GateResult(UNSAFE, d, [Attempt(false, HealerError)], d)
  {
    assert StopsAt(UNREADABLE.verdict, timeout, poll, 0);
    assert !Healthy(d);
    assert [] + [Attempt(false, HealerError)] == [Attempt(false, HealerError)];
  }

  /** The heal calls a gate run makes are numbered below |attempts|. In all of them, with
      the trigger installed and a host-root signal in every diagnosis, istiod is never
      restarted, and each published request names a whitelisted signal of the diagnosis it
      answers; with no host-root signal, nothing is ever published. */
  lemma PrivilegeIsEarned(diagnosis: nat -> Diagnosis, host: nat -> Host, timeout: real, poll: real, max: int)
    requires AllEnd(host, timeout, poll)
    ensures var r := Gate(WithHealer(diagnosis, host, timeout, poll), true, max);
            forall k :: 0 <= k < |r.attempts| ==>
              var e := HealEffect(host(k), timeout, poll, diagnosis(k));
              && !Healthy(diagnosis(k))
              && (host(k).installed && (exists s :: s in diagnosis(k) && HostRoot(s)) ==> e.restarted.None?)
              && (e.published.Some? ==> e.published.value in diagnosis(k) && HostRoot(e.published.value))
              && ((forall s :: s in diagnosis(k) ==> !HostRoot(s)) ==> e.published.None?)
              && (e.restarted.Some? ==> e.restarted.value in diagnosis(k) && Rbac(e.restarted.value))
  {
    hide PollFrom;
    var w := WithHealer(diagnosis, host, timeout, poll);
    if !Healthy(diagnosis(0)) { AttemptsAreOnUnhealthy(w, max, 0, []); }
  }

  /** The restarts of the first `n` heal calls. */
  function RestartsOf(diagnosis: nat -> Diagnosis, host: nat -> Host, timeout: real, poll: real, n: nat): seq<Signal>
    requires AllEnd(host, timeout, poll)
  {
    if n == 0 then []
    else
      var e := HealEffect(host(n - 1), timeout, poll, diagnosis(n - 1));
      RestartsOf(diagnosis, host, timeout, poll, n - 1) + if e.restarted.Some? then [e.restarted.value] else []
  }

  /** What one more file in the watched directory may be: heal call `k` answered a signal of
      its own diagnosis. */
  ghost predicate Answers(f: File, id: nat, k: nat, diagnosis: nat -> Diagnosis) {
    f.Whole? && f.request.id == id && f.request.signal in diagnosis(k) && HostRoot(f.request.signal)
  }

  /** What the watched directory may hold after `n` heal calls. */
  ghost predicate OnlyAnswers(before: map<nat, File>, now: map<nat, File>, firstId: nat, n: nat,
                              diagnosis: nat -> Diagnosis) {
    forall id :: id in now ==>
      || (id in before && now[id] == before[id])
      || (firstId <= id < firstId + n && Answers(now[id], id, id - firstId, diagnosis))
  }

  /** The trigger is installed and every one of the `n` diagnoses holds a host-root signal. */
  ghost predicate AllNeedRoot(diagnosis: nat -> Diagnosis, host: nat -> Host, n: nat) {
    forall k :: 0 <= k < n ==> NeedsRoot(diagnosis(k), host(k))
  }

  ghost predicate NeedsRoot(d: Diagnosis, host: Host) { host.installed && exists s :: s in d && HostRoot(s) }

  lemma {:induction false} NoRestarts(diagnosis: nat -> Diagnosis, host: nat -> Host, timeout: real, poll: real, n: nat)
    requires AllEnd(host, timeout, poll)
    ensures AllNeedRoot(diagnosis, host, n) ==> RestartsOf(diagnosis, host, timeout, poll, n) == []
  {
    hide PollFrom;
    if n > 0 && AllNeedRoot(diagnosis, host, n) {
      assert AllNeedRoot(diagnosis, host, n - 1);
      NoRestarts(diagnosis, host, timeout, poll, n - 1);
      assert NeedsRoot(diagnosis(n - 1), host(n - 1));
    }
  }

  /** The gate loop driving this healer, heal call `k` under request id `firstId + k`. Over
      the whole run: the gate's result; the restarts made, none when every diagnosis holds a
      host-root signal and the trigger is installed; and a watched directory that gained
      only answers to this run's own diagnoses. */
  method EvaluatePrivileged(h: PrivilegedHealer, diagnosis: nat -> Diagnosis, host: nat -> Host,
                            available: bool, max: int, firstId: nat) returns (r: GateResult)
    requires h.Valid() && AllEnd(host, h.timeout, h.poll)
    modifies h
    ensures h.Valid() && r == Gate(WithHealer(diagnosis, host, h.timeout, h.poll), available, max)
    ensures h.restarts == old(h.restarts) + RestartsOf(diagnosis, host, h.timeout, h.poll, |r.attempts|)
    ensures AllNeedRoot(diagnosis, host, |r.attempts|) ==> h.restarts == old(h.restarts)
    ensures OnlyAnswers(old(h.requests), h.requests, firstId, |r.attempts|, diagnosis)
  {
    hide HealEffect, OnlyAnswers, AllNeedRoot, RestartsOf;
    ghost var w := WithHealer(diagnosis, host, h.timeout, h.poll);
    ghost var was, before := h.restarts, h.requests;
    var initial := diagnosis(0);
    NothingYet(was, before, firstId, diagnosis, host, h.timeout, h.poll);
    if Healthy(initial) { return GateResult(HEALTHY, initial, [], initial); }
    if !available { return GateResult(UNSAFE, initial, [], initial); }
    var attempts: seq<Attempt>, latest, i: nat, raised := [], initial, 0, false;
    while i < max && !Healthy(latest) && !raised
      invariant h.Valid() && |attempts| == i
      invariant raised ==> i > 0 && !Healthy(latest)
      invariant latest == diagnosis(if raised then i - 1 else i) && (Healthy(latest) ==> i > 0)
      invariant Gate(w, available, max) ==
                if raised then GateResult(UNSAFE, initial, attempts, latest)
                else if Healthy(latest) then GateResult(HEALED, initial, attempts, latest)
                else HealFrom(w, max, i, attempts)
      invariant h.restarts == was + RestartsOf(diagnosis, host, h.timeout, h.poll, i)
      invariant OnlyAnswers(before, h.requests, firstId, i, diagnosis)
      decreases max - i
    {
      AfterHeal(was, before, h.requests, firstId, i, diagnosis, host, h.timeout, h.poll);
      var healing := h.Heal(latest, firstId + i, host(i));
      assert healing == w.healing(i);
      raised := healing.Raised?;
      attempts := attempts + [if raised then Attempt(false, HealerError) else healing.attempt];
      i := i + 1;
      if !raised { latest := diagnosis(i); }
    }
    r := GateResult(if Healthy(latest) then HEALED else UNSAFE, initial, attempts, latest);
    NoRestarts(diagnosis, host, h.timeout, h.poll, i);
  }

  lemma NothingYet(was: seq<Signal>, before: map<nat, File>, firstId: nat, diagnosis: nat -> Diagnosis,
                   host: nat -> Host, timeout: real, poll: real)
    requires AllEnd(host, timeout, poll)
    ensures was + RestartsOf(diagnosis, host, timeout, poll, 0) == was
    ensures OnlyAnswers(before, before, firstId, 0, diagnosis)
  {
  }

  /** What heal call `i` adds. */
  lemma AfterHeal(was: seq<Signal>, before: map<nat, File>, now: map<nat, File>, firstId: nat, i: nat,
                  diagnosis: nat -> Diagnosis, host: nat -> Host, timeout: real, poll: real)
    requires AllEnd(host, timeout, poll) && OnlyAnswers(before, now, firstId, i, diagnosis)
    ensures var e, id := HealEffect(host(i), timeout, poll, diagnosis(i)), firstId + i;
            && was + RestartsOf(diagnosis, host, timeout, poll, i + 1) ==
               was + RestartsOf(diagnosis, host, timeout, poll, i) +
               (if e.restarted.Some? then [e.restarted.value] else [])
            && OnlyAnswers(before, if e.published.Some? then now[id := Whole(Request(id, e.published.value))] else now,
                           firstId, i + 1, diagnosis)
  {
    hide PollFrom;
  }

  lemma {:induction false} AttemptsAreOnUnhealthy(w: World, max: int, i: nat, attempts: seq<Attempt>)
    requires |attempts| == i && !Healthy(w.diagnosis(i))
    ensures i <= |HealFrom(w, max, i, attempts).attempts|
    ensures forall k :: i <= k < |HealFrom(w, max, i, attempts).attempts| ==> !Healthy(w.diagnosis(k))
    decreases max - i
  {
    if i < max && w.healing(i).Did? && !Healthy(w.diagnosis(i + 1)) {
      AttemptsAreOnUnhealthy(w, max, i + 1, attempts + [w.healing(i).attempt]);
    }
  }
}

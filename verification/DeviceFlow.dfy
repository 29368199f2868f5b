/** scripts/deploy/acl_e2e_device_mint.py: minting a token with the device flow (section 3.5
    of RFC 8628) into two isolated stores. */
module DeviceFlow {
  import opened Lists

  /** A member of a JSON object, as far as the mint looks at it. */
  datatype Member = Absent | Text(s: string) | Int(n: int) | Other(truthy: bool)

  predicate Truthy(m: Member) {
    match m
    case Absent => false
    case Text(s) => s != []
    case Int(n) => n != 0
    case Other(truthy) => truthy
  }

  /** `_positive_int`: zero passes. */
  function PositiveInt(m: Member, otherwise: nat): nat { if m.Int? && m.n >= 0 then m.n else otherwise }

  datatype DeviceReply = DeviceReply(status: int, deviceCode: Member, interval: Member, expiresIn: Member)

  datatype TokenReply = TokenReply(status: int, error: Member, accessToken: Member, expiresIn: Member)

  predicate Granted(r: TokenReply) { r.status == 200 && !Truthy(r.error) }
  predicate SlowDown(r: TokenReply) { !Granted(r) && r.error == Text("slow_down") }
  predicate KeepPolling(r: TokenReply) {
    !Granted(r) && (r.error == Text("authorization_pending") || r.error == Text("slow_down"))
  }

  /** One round of the loop: the clock at its check, the answer to its poll (None when the
      call raised; a transport failure is status 0), and the clock after it. */
  datatype Tick = Tick(now: real, answer: Option<TokenReply>, after: real)

  predicate GoesOn(t: Tick) { t.answer.Some? && KeepPolling(t.answer.value) }

  /** A granting answer, spelled out: 200, and an error member that is missing or nothing. */
  ghost predicate IsGrant(r: TokenReply) {
    r.status == 200 && r.error in {Absent, Text(""), Int(0), Other(false)}
  }

  /** An answer that asks to go on, spelled out. */
  ghost predicate AsksOn(t: Tick) {
    t.answer.Some? && t.answer.value.error in {Text("authorization_pending"), Text("slow_down")}
  }

  lemma GoesOnIff(t: Tick)
    ensures GoesOn(t) <==> AsksOn(t)
    ensures t.answer.Some? ==> (Granted(t.answer.value) <==> IsGrant(t.answer.value))
    ensures Slows(t) <==> t.answer.Some? && t.answer.value.error == Text("slow_down")
  {
  }

  // -------------------------------------------------------------- when to poll

  predicate Slows(t: Tick) { t.answer.Some? && SlowDown(t.answer.value) }

  function SlowDowns(ticks: seq<Tick>): nat {
    if ticks == [] then 0
    else SlowDowns(ticks[..|ticks| - 1]) + if Slows(ticks[|ticks| - 1]) then 1 else 0
  }

  /** The wait before poll `n`. */
  function WaitAt(interval: nat, ticks: seq<Tick>, n: nat): nat
    requires n <= |ticks|
  {
    interval + 5 * SlowDowns(ticks[..n])
  }

  function TotalWait(interval: nat, ticks: seq<Tick>, n: nat): nat
    requires n <= |ticks|
  {
    if n == 0 then 0 else TotalWait(interval, ticks, n - 1) + WaitAt(interval, ticks, n - 1)
  }

  datatype End = Unfinished | Elapsed | Answered | Broke

  /** How many polls the loop makes on these ticks, from round `n` on, and why it ends. */
  function Polls(ticks: seq<Tick>, deadline: real, n: nat): (r: (nat, End))
    requires n <= |ticks|
    ensures n <= r.0 <= |ticks|
    decreases |ticks| - n
  {
    if n == |ticks| then (n, Unfinished)
    else if ticks[n].now >= deadline then (n, Elapsed)
    else if GoesOn(ticks[n]) then Polls(ticks, deadline, n + 1)
    else (n + 1, if ticks[n].answer.Some? then Answered else Broke)
  }

  /** Every poll but a last one that ended the loop was told to go on, every one started inside the
      window, and the loop stops at the first round that is not. */
  lemma {:induction false} PollsAre(ticks: seq<Tick>, deadline: real, n: nat)
    requires n <= |ticks|
    ensures var (k, end) := Polls(ticks, deadline, n);
            && (forall i :: n <= i < k ==> ticks[i].now < deadline)
            && (forall i :: n <= i < k && (end == Unfinished || end == Elapsed || i < k - 1) ==> GoesOn(ticks[i]))
            && (end == Unfinished ==> k == |ticks|)
            && (end == Elapsed ==> k < |ticks| && ticks[k].now >= deadline)
            && (end == Answered ==> k > n && ticks[k - 1].answer.Some? && !GoesOn(ticks[k - 1]))
            && (end == Broke ==> k > n && ticks[k - 1].answer.None?)
    decreases |ticks| - n
  {
    if n < |ticks| && ticks[n].now < deadline && GoesOn(ticks[n]) { PollsAre(ticks, deadline, n + 1); }
  }

  /** In plain terms: after a poll inside the window the next round polls again, if it starts
      inside the window as well, exactly when the answer said that the authorization is
      pending or that polling should slow down; and each of the latter makes every later
      wait five seconds longer. */
  lemma PollsOnIff(ticks: seq<Tick>, deadline: real, interval: nat, n: nat)
    requires n + 1 < |ticks| && n < Polls(ticks, deadline, 0).0
    ensures ticks[n + 1].now < deadline ==> (n + 1 < Polls(ticks, deadline, 0).0 <==> AsksOn(ticks[n]))
    ensures ticks[n + 1].now >= deadline ==> Polls(ticks, deadline, 0).0 == n + 1
    ensures WaitAt(interval, ticks, 0) == interval
    ensures WaitAt(interval, ticks, n + 1) == WaitAt(interval, ticks, n) +
              if ticks[n].answer.Some? && ticks[n].answer.value.error == Text("slow_down") then 5 else 0
  {
    hide Polls, WaitAt;
    PollsAre(ticks, deadline, 0);
    GoesOnIff(ticks[n]);
    FirstWait(interval, ticks);
    NextWait(interval, ticks, n);
  }

  /** Sleeping moves the clock by at least the wait, and nothing moves it back. */
  ghost predicate SleepAdvances(start: real, interval: nat, ticks: seq<Tick>) {
    && (|ticks| > 0 ==> ticks[0].now >= start)
    && (forall n :: 0 <= n < |ticks| - 1 ==> ticks[n + 1].now >= ticks[n].now + WaitAt(interval, ticks, n) as real)
  }

  lemma {:induction false} ClockPassesWaits(start: real, interval: nat, ticks: seq<Tick>, n: nat)
    requires SleepAdvances(start, interval, ticks) && n < |ticks|
    ensures ticks[n].now >= start + TotalWait(interval, ticks, n) as real
  {
    if n > 0 {
      ClockPassesWaits(start, interval, ticks, n - 1);
      assert ticks[n - 1 + 1].now >= ticks[n - 1].now + WaitAt(interval, ticks, n - 1) as real;
    }
  }

  lemma {:induction false} WaitsAddUp(interval: nat, ticks: seq<Tick>, n: nat)
    requires n <= |ticks|
    ensures TotalWait(interval, ticks, n) >= n * interval
  {
    if n > 0 {
      WaitsAddUp(interval, ticks, n - 1);
      assert n * interval == (n - 1) * interval + interval;
    }
  }

  function CeilDiv(a: nat, b: nat): nat
    requires b > 0
  {
    (a + b - 1) / b
  }

  lemma CeilBound(k: nat, a: nat, b: nat)
    requires b > 0 && (k == 0 || (k - 1) * b < a)
    ensures k <= CeilDiv(a, b)
  {
    var q := (a + b - 1) / b;
    assert a + b - 1 == q * b + (a + b - 1) % b;
    assert a <= q * b;
    if k > 0 { Ordered(k - 1, q, b); }
  }

  lemma Ordered(m: nat, q: nat, b: nat)
    requires m * b < q * b
    ensures m < q
  {
    assert m >= q ==> (m - q) * b >= 0;
    assert (m - q) * b == m * b - q * b;
  }

  /** The window bounds the polls: the waits before the last poll fit inside it, so with a
      positive interval there are at most ceil(expires_in / interval) polls, and a run
      that is given one more round has ended. */
  lemma PollBudget(start: real, interval: nat, expiresIn: nat, ticks: seq<Tick>)
    requires SleepAdvances(start, interval, ticks)
    ensures var (k, end) := Polls(ticks, start + expiresIn as real, 0);
            && (k > 0 ==> expiresIn > 0 && TotalWait(interval, ticks, k - 1) < expiresIn)
            && (interval > 0 ==> k <= CeilDiv(expiresIn, interval))
            && (interval > 0 && |ticks| > CeilDiv(expiresIn, interval) ==> end != Unfinished)
  {
    hide Polls, TotalWait, SleepAdvances, CeilDiv, GoesOn;
    var deadline := start + expiresIn as real;
    var (k, end) := Polls(ticks, deadline, 0);
    PollsAre(ticks, deadline, 0);
    if k > 0 {
      ClockPassesWaits(start, interval, ticks, k - 1);
      WaitsAddUp(interval, ticks, k - 1);
    }
    if interval > 0 { CeilBound(k, expiresIn, interval); }
  }

  function Pending(now: real): Tick {
    Tick(now, Some(TokenReply(400, Text("authorization_pending"), Absent, Absent)), now)
  }

  /** An interval of zero, which `_positive_int` lets through, bounds nothing: a clock that
      sleeping does not move gives any number of polls. */
  lemma {:induction false} ZeroIntervalIsUnbounded(start: real, expiresIn: nat, n: nat)
    requires expiresIn > 0
    ensures PositiveInt(Int(0), 5) == 0
    ensures var ticks := seq(n, _ => Pending(start));
            SleepAdvances(start, 0, ticks) && Polls(ticks, start + expiresIn as real, 0) == (n, Unfinished)
  {
    var ticks := seq(n, _ => Pending(start));
    forall i | 0 <= i <= n ensures SlowDowns(ticks[..i]) == 0 { NoSlowDowns(ticks[..i]); }
    PollsAre(ticks, start + expiresIn as real, 0);
  }

  lemma {:induction false} NoSlowDowns(ticks: seq<Tick>)
    requires forall i :: 0 <= i < |ticks| ==> !Slows(ticks[i])
    ensures SlowDowns(ticks) == 0
  {
    if ticks != [] { NoSlowDowns(ticks[..|ticks| - 1]); }
  }

  // -------------------------------------------------------------- the mint

  datatype Record = Record(accessToken: string, expiresAt: int, issuer: string)

  datatype Exit = Refused | DeviceError | Denied | Expired | WriteFailed | Minted | StillPolling | Raised

  /** How writing a file ends: done, or failed leaving anything behind. */
  datatype Write<T> = Written | Broken(left: Option<T>)

  /** The two isolated files. */
  class Stores {
    var tokens: Option<Record>
    var bruno: Option<string>

    constructor (tokens: Option<Record>, bruno: Option<string>)
      ensures this.tokens == tokens && this.bruno == bruno
    {
      this.tokens, this.bruno := tokens, bruno;
    }

    /** `persist`: the second file is only touched once the first one is written. */
    method Persist(record: Record, first: Write<Record>, second: Write<string>) returns (ok: bool)
      modifies this
      ensures ok <==> first.Written? && second.Written?
      ensures tokens == if first.Written? then Some(record) else first.left
      ensures bruno == if first.Broken? then old(bruno)
                       else if second.Written? then Some(record.accessToken)
                       else second.left
    {
      if first.Broken? {
        tokens := first.left;
        return false;
      }
      tokens := Some(record);
      bruno := if second.Written? then Some(record.accessToken) else second.left;
      ok := second.Written?;
    }
  }

  /** Everything outside the program: whether the isolated paths resolve, the device
      endpoint's answer or None for an exception, the clock, the rounds, and what writing does. */
  datatype World = World(refused: bool, issuer: string, device: Option<DeviceReply>, start: real, ticks: seq<Tick>,
                         first: Write<Record>, second: Write<string>)

  predicate Usable(m: Member) { m.Text? && m.s != [] }

  predicate Started(w: World) {
    !w.refused && w.device.Some? && w.device.value.status == 200 && Usable(w.device.value.deviceCode)
  }

  function Interval(w: World): nat
    requires w.device.Some?
  {
    PositiveInt(w.device.value.interval, 5)
  }

  function Deadline(w: World): real
    requires w.device.Some?
  {
    w.start + PositiveInt(w.device.value.expiresIn, 120) as real
  }

  /** The token record a granting answer leads to. */
  function Minting(w: World, t: Tick): Record
    requires t.answer.Some? && t.answer.value.accessToken.Text?
  {
    Record(t.answer.value.accessToken.s, t.after.Floor + PositiveInt(t.answer.value.expiresIn, 0), w.issuer)
  }

  /** The answer that ended the loop. */
  predicate LastIs(w: World, polls: nat, r: TokenReply) {
    0 < polls <= |w.ticks| && w.ticks[polls - 1].answer == Some(r)
  }

  /** The exit an answer leads to. */
  ghost predicate Answers(r: TokenReply, exit: Exit) {
    && (exit == Denied <==> r.error == Text("access_denied"))
    && (exit == Expired <==> r.error == Text("expired_token"))
    && (exit in {WriteFailed, Minted} <==> IsGrant(r) && r.accessToken.Text? && r.accessToken.s != "")
    && exit != Refused && exit != Raised && exit != StillPolling
  }

  /** Both stores hold this answer's token, which expires as the answer says, from the clock
      after it; at once when it does not say. */
  ghost predicate HoldsTokenOf(s: Stores, w: World, polls: nat, r: TokenReply)
    requires LastIs(w, polls, r)
    reads s
  {
    && r.accessToken.Text? && s.bruno == Some(r.accessToken.s)
    && var lifetime := if r.expiresIn.Int? && r.expiresIn.n >= 0 then r.expiresIn.n else 0;
       s.tokens == Some(Record(r.accessToken.s, w.ticks[polls - 1].after.Floor + lifetime, w.issuer))
  }

  /** When the loop is entered, how long its first wait and its window are. */
  lemma StartIs(w: World)
    ensures Started(w) <==>
              && !w.refused && w.device.Some? && w.device.value.status == 200
              && w.device.value.deviceCode.Text? && w.device.value.deviceCode.s != ""
    ensures Started(w) ==>
              var interval, window := w.device.value.interval, w.device.value.expiresIn;
              && Interval(w) == (if interval.Int? && interval.n >= 0 then interval.n else 5)
              && Deadline(w) == w.start + (if window.Int? && window.n >= 0 then window.n else 120) as real
  {
  }

  /** `run`. `waits` are the sleeps, one before each poll. */
  method Mint(w: World, s: Stores) returns (exit: Exit, waits: seq<nat>)
    modifies s
    ensures !Started(w) ==>
              waits == [] && exit == if w.refused then Refused else if w.device.None? then Raised else DeviceError
    ensures |waits| == if Started(w) then Polls(w.ticks, Deadline(w), 0).0 else 0
    ensures Started(w) ==> forall n :: 0 <= n < |waits| ==> waits[n] == WaitAt(Interval(w), w.ticks, n)
    ensures Started(w) ==> var end := Polls(w.ticks, Deadline(w), 0).1;
              && (exit == StillPolling <==> end == Unfinished)
              && (exit == Raised <==> end == Broke)
              && (end == Elapsed ==> exit == Expired)
              && (end == Answered ==> exists r :: LastIs(w, |waits|, r) && Answers(r, exit))
    ensures exit in {WriteFailed, Minted} ==> (exit == Minted <==> w.first.Written? && w.second.Written?)
    ensures exit == Minted ==> exists r :: LastIs(w, |waits|, r) && HoldsTokenOf(s, w, |waits|, r)
    ensures exit == WriteFailed && w.first.Broken? ==> s.bruno == old(s.bruno)
    ensures exit !in {WriteFailed, Minted} ==> s.tokens == old(s.tokens) && s.bruno == old(s.bruno)
  {
    hide Polls, WaitAt, Minting, IsGrant;
    waits := [];
    if w.refused { return Refused, waits; }
    if w.device.None? { return Raised, waits; }
    if w.device.value.status != 200 || !Usable(w.device.value.deviceCode) { return DeviceError, waits; }
    var interval, ticks := Interval(w), w.ticks;
    var deadline := Deadline(w);
    var n: nat := 0;
    FirstWait(interval, ticks);
    while n < |ticks| && ticks[n].now < deadline
      invariant n <= |ticks| && |waits| == n
      invariant interval == WaitAt(Interval(w), ticks, n)
      invariant forall i :: 0 <= i < n ==> waits[i] == WaitAt(Interval(w), ticks, i)
      invariant Polls(ticks, deadline, 0) == Polls(ticks, deadline, n)
      invariant s.tokens == old(s.tokens) && s.bruno == old(s.bruno)
    {
      NextPoll(ticks, deadline, n);
      NextWait(Interval(w), ticks, n);
      waits := waits + [interval];
      if ticks[n].answer.None? { return Raised, waits; }
      var reply := ticks[n].answer.value;
      assert LastIs(w, |waits|, reply);
      GoesOnIff(ticks[n]);
      if reply.status == 200 && !Truthy(reply.error) {
        exit := Finish(w, ticks[n], s);
        return;
      }
      if reply.error == Text("authorization_pending") {
      } else if reply.error == Text("slow_down") {
        interval := interval + 5;
      } else if reply.error == Text("access_denied") {
        return Denied, waits;
      } else if reply.error == Text("expired_token") {
        return Expired, waits;
      } else {
        return DeviceError, waits;
      }
      n := n + 1;
    }
    NextPoll(ticks, deadline, n);
    exit := if n == |ticks| then StillPolling else Expired;
  }

  lemma NextPoll(ticks: seq<Tick>, deadline: real, n: nat)
    requires n <= |ticks|
    ensures Polls(ticks, deadline, n) ==
            if n == |ticks| then (n, Unfinished)
            else if ticks[n].now >= deadline then (n, Elapsed)
            else if GoesOn(ticks[n]) then Polls(ticks, deadline, n + 1)
            else (n + 1, if ticks[n].answer.Some? then Answered else Broke)
  {
  }

  lemma FirstWait(interval: nat, ticks: seq<Tick>)
    ensures WaitAt(interval, ticks, 0) == interval
  {
  }

  lemma NextWait(interval: nat, ticks: seq<Tick>, n: nat)
    requires n < |ticks|
    ensures WaitAt(interval, ticks, n + 1) == WaitAt(interval, ticks, n) + if Slows(ticks[n]) then 5 else 0
  {
    assert ticks[..n + 1][..n] == ticks[..n];
  }

  /** `_finish` */
  method Finish(w: World, t: Tick, s: Stores) returns (exit: Exit)
    requires t.answer.Some?
    modifies s
    ensures exit in {DeviceError, WriteFailed, Minted} && (exit == DeviceError <==> !Usable(t.answer.value.accessToken))
    ensures exit == DeviceError ==> s.tokens == old(s.tokens) && s.bruno == old(s.bruno)
    ensures exit != DeviceError ==> (exit == Minted <==> w.first.Written? && w.second.Written?)
    ensures exit == Minted ==>
              var r := t.answer.value;
              var lifetime := if r.expiresIn.Int? && r.expiresIn.n >= 0 then r.expiresIn.n else 0;
              && s.bruno == Some(r.accessToken.s)
              && s.tokens == Some(Record(r.accessToken.s, t.after.Floor + lifetime, w.issuer))
    ensures exit == WriteFailed && w.first.Broken? ==> s.bruno == old(s.bruno)
  {
    if !Usable(t.answer.value.accessToken) { return DeviceError; }
    var ok := s.Persist(Minting(w, t), w.first, w.second);
    exit := if ok then Minted else WriteFailed;
  }
}

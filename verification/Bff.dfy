/** bff/auth.py, bff/exchange.py, bff/app.py: concurrent requests that validate a
    forwarded token, exchange it (section 2.1 of RFC 8693), re-check the minted token and
    call the orchestrator, sharing one JWKS cache. Requests interleave at every await:
    a run is any sequence of the actions below. */
module Bff {
  import opened Lists

  type Token = string
  type Keys = nat      // one key set, as the JWKS endpoint answered it
  type Route = string

  /** What a verified token says, that its verification failed, or that verifying raised
      something else than a JWTError, as the library does on a key it cannot use. */
  datatype Decoded = Invalid | Valid(issuer: string, sub: Option<string>) | Raised

  /** What an endpoint answered: something usable; a failure the code foresees; or JSON that
      is not an object, on which `.get` raises outside every handler, as does any other
      exception that is not one of those the code names. */
  datatype Reply<T> = Good(value: T) | Bad | Odd

  /** Settings and the JWT library: `decode` may depend on the keys and the time. */
  datatype World = World(decode: (Token, Keys, int) -> Decoded, issuers: set<string>, ttl: int,
                         scope: Route -> Option<string>, blank: string -> bool)

  /** The part of the token-exchange request that identifies: whose token, which scope. */
  datatype Form = Form(subject: Token, scope: Option<string>)

  /** `now - fetched_at < ttl` is tested on `fetchedAt`; `receivedAt` is when the keys came. */
  datatype Cache = Empty | Held(keys: Keys, fetchedAt: int, receivedAt: int)

  /** Where a request is suspended. */
  datatype Request =
    | Arrived(route: Route, inbound: Option<Token>)
    | FetchingInbound(route: Route, token: Token, started: int)
    | Exchanging(route: Route, token: Token, sub: string, form: Form)
    | FetchingMinted(route: Route, token: Token, sub: string, minted: Token, started: int)
    | Ready(route: Route, token: Token, sub: string, minted: Token)
    | Proxied
    | Refused(status: int)

  datatype Event =
    | Began(id: nat, route: Route, header: Option<Token>)
    | NoHeader(id: nat)                                     // no token to validate
    | Fetched(id: nat, keys: Keys, started: int, at: int)   // the JWKS endpoint answered
    | FetchFailed(id: nat)                                  // or failed as foreseen
    | BadAnswer(id: nat)                                    // so did the token endpoint
    | OddAnswer(id: nat)                                    // either of them was odd
    | Crashed(id: nat, token: Token, keys: Keys, at: int)   // verifying raised
    | Rejected(id: nat, token: Token, keys: Keys, at: int)  // the inbound token did not verify
    | RejectedMint(id: nat, minted: Token, sub: string, keys: Keys, at: int)
    | CacheHit(id: nat, keys: Keys, at: int, fetchedAt: int, receivedAt: int)
    | Validated(id: nat, token: Token, sub: string, keys: Keys, at: int)
    | Minted(id: nat, form: Form, minted: Token)
    | Checked(id: nat, minted: Token, sub: string, keys: Keys, at: int)
    | Called(id: nat, route: Route, minted: Token)

  datatype State = State(clock: int, cache: Cache, requests: map<nat, Request>, log: seq<Event>)

  datatype Action =
    | Tick(elapsed: nat)
    | Arrive(id: nat, route: Route, header: Option<Token>)
    | Start(id: nat)
    | JwksReply(id: nat, jwks: Reply<Keys>)
    | ExchangeReply(id: nat, answer: Reply<Token>)
    | Forward(id: nat)

  const INIT := State(0, Empty, map[], [])

  predicate Fresh(w: World, s: State) { s.cache.Held? && s.clock - s.cache.fetchedAt < w.ttl }

  /** `_decode_with_allowed_issuers` and the `sub` check of `validate_inbound_token`. */
  function InboundSub(w: World, token: Token, keys: Keys, at: int): Option<string> {
    var d := w.decode(token, keys, at);
    if d.Valid? && d.issuer in w.issuers && d.sub.Some? && !w.blank(d.sub.value) then d.sub else None
  }

  function Goto(s: State, id: nat, r: Request, events: seq<Event>): State {
    s.(requests := s.requests[id := r], log := s.log + events)
  }

  /** Validation once the keys are in hand. */
  function Validate(w: World, s: State, id: nat, route: Route, token: Token, keys: Keys): State {
    if w.decode(token, keys, s.clock).Raised? then Goto(s, id, Refused(500), [Crashed(id, token, keys, s.clock)])
    else match InboundSub(w, token, keys, s.clock)
      case None => Goto(s, id, Refused(401), [Rejected(id, token, keys, s.clock)])
      case Some(sub) => Goto(s, id, Exchanging(route, token, sub, Form(token, w.scope(route))),
                            [Validated(id, token, sub, keys, s.clock)])
  }

  /** `_revalidate_minted_token` and the identity assertion once the keys are in hand. */
  function CheckMinted(w: World, s: State, id: nat, r: Request, keys: Keys): State
    requires r.FetchingMinted?
  {
    var d := w.decode(r.minted, keys, s.clock);
    if d.Raised? then Goto(s, id, Refused(500), [Crashed(id, r.minted, keys, s.clock)])
    else if d.Valid? && d.sub == Some(r.sub)
    then Goto(s, id, Ready(r.route, r.token, r.sub, r.minted), [Checked(id, r.minted, r.sub, keys, s.clock)])
    else Goto(s, id, Refused(502), [RejectedMint(id, r.minted, r.sub, keys, s.clock)])
  }

  function Hit(s: State, id: nat): Event
    requires s.cache.Held?
  {
    CacheHit(id, s.cache.keys, s.clock, s.cache.fetchedAt, s.cache.receivedAt)
  }

  /** The handler up to its first await, and `get_jwks_keys` on a cache hit. */
  function DoStart(w: World, s: State, id: nat, r: Request): State
    requires r.Arrived?
  {
    if r.inbound.None? || w.blank(r.inbound.value) then Goto(s, id, Refused(401), [NoHeader(id)])
    else if Fresh(w, s) then
      Validate(w, Goto(s, id, r, [Hit(s, id)]), id, r.route, r.inbound.value, s.cache.keys)
    else Goto(s, id, FetchingInbound(r.route, r.inbound.value, s.clock), [])
  }

  /** A JWKS answer: the cache is stamped with the time the fetch began. A failed fetch is
      a 401 during inbound validation; during re-validation its exception is not one the
      handler catches, so the request ends as a server error, as it does on an odd answer. */
  function DoJwks(w: World, s: State, id: nat, r: Request, reply: Reply<Keys>): State
    requires r.FetchingInbound? || r.FetchingMinted?
  {
    match reply
    case Odd => Goto(s, id, Refused(500), [OddAnswer(id)])
    case Bad => Goto(s, id, Refused(if r.FetchingInbound? then 401 else 500), [FetchFailed(id)])
    case Good(keys) =>
      var s' := Goto(s, id, r, [Fetched(id, keys, r.started, s.clock)]).(cache := Held(keys, r.started, s.clock));
      if r.FetchingInbound? then Validate(w, s', id, r.route, r.token, keys) else CheckMinted(w, s', id, r, keys)
  }

  function DoExchange(w: World, s: State, id: nat, r: Request, reply: Reply<Token>): State
    requires r.Exchanging?
  {
    if reply.Odd? then Goto(s, id, Refused(500), [OddAnswer(id)])
    else if reply.Bad? || w.blank(reply.value) then Goto(s, id, Refused(502), [BadAnswer(id)])
    else
      var wait := FetchingMinted(r.route, r.token, r.sub, reply.value, s.clock);
      var minted := Minted(id, r.form, reply.value);
      if Fresh(w, s) then CheckMinted(w, Goto(s, id, wait, [minted, Hit(s, id)]), id, wait, s.cache.keys)
      else Goto(s, id, wait, [minted])
  }

  function Next(w: World, s: State, a: Action): State {
    match a
    case Tick(d) => s.(clock := s.clock + d)
    case Arrive(id, route, token) =>
      if id in s.requests then s else Goto(s, id, Arrived(route, token), [Began(id, route, token)])
    case Start(id) =>
      if id in s.requests && s.requests[id].Arrived? then DoStart(w, s, id, s.requests[id]) else s
    case JwksReply(id, reply) =>
      if id in s.requests && (s.requests[id].FetchingInbound? || s.requests[id].FetchingMinted?)
      then DoJwks(w, s, id, s.requests[id], reply) else s
    case ExchangeReply(id, reply) =>
      if id in s.requests && s.requests[id].Exchanging? then DoExchange(w, s, id, s.requests[id], reply) else s
    case Forward(id) =>
      if id in s.requests && s.requests[id].Ready?
      then Goto(s, id, Proxied, [Called(id, s.requests[id].route, s.requests[id].minted)]) else s
  }

  function Run(w: World, s: State, actions: seq<Action>): State
    decreases |actions|
  {
    if actions == [] then s
    else Next(w, Run(w, s, actions[..|actions| - 1]), actions[|actions| - 1])
  }

  // ------------------------------------------------------------- what is logged

  /** The JWKS endpoint gave these keys: in this same request at this very moment, or in a
      fetch that began and ended less than the TTL ago. */
  ghost predicate KeysServed(w: World, past: seq<Event>, id: nat, keys: Keys, at: int) {
    exists fetcher, started, received ::
      Fetched(fetcher, keys, started, received) in past && started <= received <= at &&
      ((fetcher == id && received == at) || at - started < w.ttl)
  }

  /** An inbound token that may be used: verified, by an issuer that is allowed, and for a
      subject that is not blank. */
  ghost predicate Usable(w: World, token: Token, sub: string, keys: Keys, at: int) {
    var d := w.decode(token, keys, at);
    d.Valid? && d.issuer in w.issuers && d.sub == Some(sub) && !w.blank(sub)
  }

  /** A minted token that names the subject. */
  ghost predicate Names(w: World, minted: Token, sub: string, keys: Keys, at: int) {
    w.decode(minted, keys, at).Valid? && w.decode(minted, keys, at).sub == Some(sub)
  }

  /** What an event records is what really happened, with keys that were really served: a
      verification succeeded or did not, and a cache hit serves a recent fetch. */
  ghost predicate Genuine(w: World, past: seq<Event>, e: Event) {
    match e
    case NoHeader(id) =>
      exists route, header: Option<Token> | header.None? || w.blank(header.value) :: Began(id, route, header) in past
    case Validated(id, token, sub, keys, at) => Usable(w, token, sub, keys, at) && KeysServed(w, past, id, keys, at)
    case Rejected(id, token, keys, at) =>
      && (forall sub :: !Usable(w, token, sub, keys, at)) && KeysServed(w, past, id, keys, at)
      && exists route :: Began(id, route, Some(token)) in past
    case Minted(_, _, minted) => !w.blank(minted)
    case Checked(id, minted, sub, keys, at) => Names(w, minted, sub, keys, at) && KeysServed(w, past, id, keys, at)
    case RejectedMint(id, minted, sub, keys, at) =>
      && !Names(w, minted, sub, keys, at) && KeysServed(w, past, id, keys, at)
      && exists route, token :: Exchanged(w, past, id, route, token, sub, minted)
    case CacheHit(_, keys, at, fetchedAt, receivedAt) =>
      && (exists fetcher :: Fetched(fetcher, keys, fetchedAt, receivedAt) in past)
      && fetchedAt <= receivedAt <= at && at - fetchedAt < w.ttl
    case Crashed(id, token, keys, at) => w.decode(token, keys, at).Raised? && KeysServed(w, past, id, keys, at)
    case _ => true
  }

  ghost predicate Inbound(past: seq<Event>, id: nat, route: Route, token: Token, sub: string) {
    Began(id, route, Some(token)) in past && exists keys, at :: Validated(id, token, sub, keys, at) in past
  }

  ghost predicate Exchanged(w: World, past: seq<Event>, id: nat, route: Route, token: Token, sub: string,
                            minted: Token) {
    Inbound(past, id, route, token, sub) && Minted(id, Form(token, w.scope(route)), minted) in past
  }

  /** Everything that must have happened, in this same request, before its token is used. */
  ghost predicate Earned(w: World, past: seq<Event>, id: nat, route: Route, token: Token, sub: string, minted: Token) {
    && Exchanged(w, past, id, route, token, sub, minted)
    && exists keys, at :: Checked(id, minted, sub, keys, at) in past
  }

  ghost predicate CallIsEarned(w: World, past: seq<Event>, e: Event) {
    e.Called? ==> exists token, sub :: Earned(w, past, e.id, e.route, token, sub, e.minted)
  }

  /** What a suspended request has behind it. */
  ghost predicate Behind(w: World, s: State, id: nat, r: Request) {
    match r
    case Arrived(route, token) => Began(id, route, token) in s.log
    case FetchingInbound(route, token, started) => Began(id, route, Some(token)) in s.log && started <= s.clock
    case Exchanging(route, token, sub, form) =>
      Inbound(s.log, id, route, token, sub) && form == Form(token, w.scope(route))
    case FetchingMinted(route, token, sub, minted, started) =>
      Exchanged(w, s.log, id, route, token, sub, minted) && started <= s.clock
    case Ready(route, token, sub, minted) => Earned(w, s.log, id, route, token, sub, minted)
    case _ => true
  }

  /** The cache holds what some fetch brought. */
  ghost predicate CacheInv(s: State) {
    s.cache.Held? ==>
      && s.cache.fetchedAt <= s.cache.receivedAt <= s.clock
      && exists fetcher :: Fetched(fetcher, s.cache.keys, s.cache.fetchedAt, s.cache.receivedAt) in s.log
  }

  ghost predicate LogInv(w: World, log: seq<Event>) {
    forall i :: 0 <= i < |log| ==> Genuine(w, log[..i], log[i]) && CallIsEarned(w, log[..i], log[i])
  }

  /** A request that called the orchestrator is finished, and called it once. */
  ghost predicate CallsInv(s: State) {
    && (forall i :: 0 <= i < |s.log| && s.log[i].Called? ==>
          s.log[i].id in s.requests && s.requests[s.log[i].id] == Proxied)
    && (forall i, j :: 0 <= i < j < |s.log| && s.log[i].Called? && s.log[j].Called? ==> s.log[i].id != s.log[j].id)
  }

  /** The request's token was minted in this part of the log. */
  ghost predicate MintedFor(past: seq<Event>, id: nat) {
    exists i :: 0 <= i < |past| && past[i].Minted? && past[i].id == id
  }

  /** The request's key fetch failed while its minted token was being checked. */
  ghost predicate RecheckFetchFailed(log: seq<Event>, id: nat) {
    exists i :: 0 <= i < |log| && log[i] == FetchFailed(id) && MintedFor(log[..i], id)
  }

  /** Verifying one of the request's tokens raised. */
  ghost predicate CrashedFor(w: World, log: seq<Event>, id: nat) {
    exists token, keys, at | w.decode(token, keys, at).Raised? :: Crashed(id, token, keys, at) in log
  }

  /** The events that end their request at once. */
  predicate Fault(e: Event) {
    e.NoHeader? || e.FetchFailed? || e.BadAnswer? || e.OddAnswer? || e.Crashed? || e.Rejected? || e.RejectedMint?
  }

  /** The status they end it with. */
  ghost function FaultStatus(past: seq<Event>, e: Event): int
    requires Fault(e)
  {
    match e
    case NoHeader(_) => 401
    case Rejected(_, _, _, _) => 401
    case FetchFailed(id) => if MintedFor(past, id) then 500 else 401
    case BadAnswer(_) => 502
    case RejectedMint(_, _, _, _, _) => 502
    case _ => 500
  }

  ghost predicate EndedBy(log: seq<Event>, id: nat, status: int) {
    exists i :: 0 <= i < |log| && Fault(log[i]) && log[i].id == id && FaultStatus(log[..i], log[i]) == status
  }

  predicate Early(r: Request) { r.Arrived? || r.FetchingInbound? || r.Exchanging? }

  /** How requests end in refusals: a fault ends its request at once, with its own status,
      and nothing else ends it. */
  ghost predicate RefusalInv(s: State) {
    && (forall id :: id in s.requests ==> StatusFits(s.log, id, s.requests[id]))
    && (forall i :: 0 <= i < |s.log| && Fault(s.log[i]) ==>
          s.log[i].id in s.requests && s.requests[s.log[i].id] == Refused(FaultStatus(s.log[..i], s.log[i])))
    && (forall id :: MintedFor(s.log, id) ==> id in s.requests)
  }

  ghost predicate StatusFits(log: seq<Event>, id: nat, r: Request) {
    && (Early(r) ==> !MintedFor(log, id))
    && (r.FetchingMinted? ==> MintedFor(log, id))
    && (r.Refused? ==> EndedBy(log, id, r.status))
  }

  ghost predicate Inv(w: World, s: State) {
    && CacheInv(s) && LogInv(w, s.log) && CallsInv(s) && RefusalInv(s)
    && forall id :: id in s.requests ==> Behind(w, s, id, s.requests[id])
  }

  // -------------------------------------------------------------- preservation

  /** What is behind a request stays behind it as the log grows and time passes. */
  lemma BehindGrows(w: World, s: State, s': State, id: nat, r: Request)
    requires Behind(w, s, id, r) && s.clock <= s'.clock && s.log <= s'.log
    ensures Behind(w, s', id, r)
  {
    assert forall e :: e in s.log ==> e in s'.log;
  }

  lemma LogGrows(w: World, log: seq<Event>, e: Event)
    requires LogInv(w, log) && Genuine(w, log, e) && CallIsEarned(w, log, e)
    ensures LogInv(w, log + [e])
  {
    hide Genuine, CallIsEarned;
    var log' := log + [e];
    forall i | 0 <= i < |log'| ensures Genuine(w, log'[..i], log'[i]) && CallIsEarned(w, log'[..i], log'[i]) {
      assert log'[..i] == log[..i];
      assert log[..|log|] == log;
    }
  }

  /** What a step may do to the refusal bookkeeping of the request it moves. */
  ghost predicate Fits(s: State, id: nat, r: Request, events: seq<Event>) {
    && (id in s.requests ==> !s.requests[id].Refused?)
    && (forall e :: e in events && (e.Minted? || Fault(e)) ==> e.id == id)
    && (Early(r) ==> !MintedFor(s.log, id) && forall e :: e in events ==> !e.Minted?)
    && (r.FetchingMinted? ==> MintedFor(s.log, id) || exists e :: e in events && e.Minted?)
    && (forall e :: e in events && Fault(e) ==> r == Refused(FaultStatus(s.log, e)))
    && (r.Refused? ==> exists e :: e in events && Fault(e))
  }

  lemma MintedSnoc(log: seq<Event>, e: Event, id: nat)
    ensures MintedFor(log + [e], id) <==> MintedFor(log, id) || (e.Minted? && e.id == id)
  {
    var log' := log + [e];
    assert log'[|log|] == e && forall i :: 0 <= i < |log| ==> log'[i] == log[i];
    if i :| 0 <= i < |log| && log[i].Minted? && log[i].id == id { assert log'[i].Minted? && log'[i].id == id; }
  }

  lemma FaultGrows(log: seq<Event>, e: Event, id: nat, status: int)
    ensures EndedBy(log + [e], id, status) <==>
            EndedBy(log, id, status) || (Fault(e) && e.id == id && FaultStatus(log, e) == status)
  {
    hide FaultStatus;
    var log' := log + [e];
    assert log'[..|log|] == log && log'[|log|] == e;
    assert forall i :: 0 <= i < |log| ==> log'[..i] == log[..i] && log'[i] == log[i];
    if i :| 0 <= i < |log| && Fault(log[i]) && log[i].id == id && FaultStatus(log[..i], log[i]) == status {
      assert Fault(log'[i]) && FaultStatus(log'[..i], log'[i]) == status;
    }
  }

  /** One more event, the request moved accordingly. */
  lemma RefusalsKept(s: State, s': State, id: nat, r: Request, e: Event)
    requires RefusalInv(s) && Fits(s, id, r, [e])
    requires s'.requests == s.requests[id := r] && s'.log == s.log + [e]
    ensures RefusalInv(s')
  {
    assert e in [e];
    hide MintedFor, EndedBy;
    forall x | x in s'.requests ensures StatusFits(s'.log, x, s'.requests[x]) {
      MintedSnoc(s.log, e, x);
      if s'.requests[x].Refused? { FaultGrows(s.log, e, x, s'.requests[x].status); }
    }
    forall i | 0 <= i < |s'.log| && Fault(s'.log[i])
      ensures s'.log[i].id in s'.requests
      ensures s'.requests[s'.log[i].id] == Refused(FaultStatus(s'.log[..i], s'.log[i]))
    {
      if i < |s.log| {
        assert s'.log[i] == s.log[i] && s'.log[..i] == s.log[..i];
      } else {
        assert s'.log[..i] == s.log && s'.log[i] == e;
      }
    }
    forall x | MintedFor(s'.log, x) ensures x in s'.requests { MintedSnoc(s.log, e, x); }
  }

  lemma RefusalsKeptQuietly(s: State, s': State, id: nat, r: Request)
    requires RefusalInv(s) && Fits(s, id, r, [])
    requires s'.requests == s.requests[id := r] && s'.log == s.log
    ensures RefusalInv(s')
  {
    hide MintedFor, EndedBy;
  }

  /** Moving one unfinished request, with at most one new genuine event that is not a call. */
  lemma Moves(w: World, s: State, id: nat, r: Request, events: seq<Event>)
    requires Inv(w, s) && (id in s.requests ==> s.requests[id] != Proxied)
    requires |events| <= 1 && forall e :: e in events ==> !e.Called? && Genuine(w, s.log, e)
    requires Fits(s, id, r, events)
    requires Behind(w, Goto(s, id, r, events), id, r)
    ensures Inv(w, Goto(s, id, r, events))
  {
    var s' := Goto(s, id, r, events);
    if |events| == 1 {
      assert events[0] in events && events == [events[0]];
      LogGrows(w, s.log, events[0]);
      assert s'.log == s.log + [events[0]];
      RefusalsKept(s, s', id, r, events[0]);
    } else {
      assert s'.log == s.log;
      RefusalsKeptQuietly(s, s', id, r);
    }
    CallsKept(s, s', id);
    AllBehind(w, s, s', id);
    CacheKept(s, s');
    hide Behind, LogInv, CallsInv, RefusalInv, CacheInv, Fits;
  }

  lemma CacheKept(s: State, s': State)
    requires CacheInv(s) && s'.cache == s.cache && s'.clock == s.clock && s.log <= s'.log
    ensures CacheInv(s')
  {
    assert forall e :: e in s.log ==> e in s'.log;
  }

  lemma AllBehind(w: World, s: State, s': State, id: nat)
    requires forall x :: x in s.requests ==> Behind(w, s, x, s.requests[x])
    requires s.clock <= s'.clock && s.log <= s'.log
    requires id in s'.requests && s'.requests == s.requests[id := s'.requests[id]] && Behind(w, s', id, s'.requests[id])
    ensures forall x :: x in s'.requests ==> Behind(w, s', x, s'.requests[x])
  {
    hide Behind;
    forall x | x in s'.requests ensures Behind(w, s', x, s'.requests[x]) {
      if x != id { BehindGrows(w, s, s', x, s.requests[x]); }
    }
  }

  lemma CallsKept(s: State, s': State, id: nat)
    requires CallsInv(s) && (id in s.requests ==> s.requests[id] != Proxied)
    requires id in s'.requests && s'.requests == s.requests[id := s'.requests[id]]
    requires s.log <= s'.log && forall i :: |s.log| <= i < |s'.log| ==> !s'.log[i].Called?
    ensures CallsInv(s')
  {
    assert forall i :: 0 <= i < |s'.log| && s'.log[i].Called? ==> i < |s.log| && s'.log[i] == s.log[i];
  }

  lemma CallMade(s: State, s': State, e: Event)
    requires CallsInv(s) && e.Called? && (e.id in s.requests ==> s.requests[e.id] != Proxied)
    requires s'.requests == s.requests[e.id := Proxied] && s'.log == s.log + [e]
    ensures CallsInv(s')
  {
    assert forall i :: 0 <= i < |s.log| ==> s'.log[i] == s.log[i];
  }

  lemma InLast(log: seq<Event>, e: Event)
    ensures e in log + [e] && forall x :: x in log ==> x in log + [e]
  {
    assert (log + [e])[|log|] == e;
  }

  /** A fault ends its request with its own status. */
  lemma FaultKeeps(w: World, s: State, id: nat, e: Event)
    requires Inv(w, s) && id in s.requests && (Early(s.requests[id]) || s.requests[id].FetchingMinted?)
    requires Fault(e) && e.id == id && Genuine(w, s.log, e)
    ensures Inv(w, Goto(s, id, Refused(FaultStatus(s.log, e)), [e]))
  {
    hide CacheInv, LogInv, CallsInv, Genuine, MintedFor, FaultStatus;
    var gone := Refused(FaultStatus(s.log, e));
    assert Behind(w, Goto(s, id, gone, [e]), id, gone);
    assert e in [e];
    Moves(w, s, id, gone, [e]);
  }

  lemma ValidateKeeps(w: World, s: State, id: nat, route: Route, token: Token, keys: Keys)
    requires Inv(w, s) && id in s.requests && Early(s.requests[id]) && Began(id, route, Some(token)) in s.log
    requires KeysServed(w, s.log, id, keys, s.clock)
    ensures Inv(w, Validate(w, s, id, route, token, keys))
  {
    hide CacheInv, LogInv, CallsInv, KeysServed, MintedFor;
    assert StatusFits(s.log, id, s.requests[id]);
    if w.decode(token, keys, s.clock).Raised? {
      FaultKeeps(w, s, id, Crashed(id, token, keys, s.clock));
      return;
    }
    match InboundSub(w, token, keys, s.clock)
    case None =>
      FaultKeeps(w, s, id, Rejected(id, token, keys, s.clock));
    case Some(sub) =>
      var e := Validated(id, token, sub, keys, s.clock);
      InLast(s.log, e);
      assert Inbound(s.log + [e], id, route, token, sub);
      Moves(w, s, id, Exchanging(route, token, sub, Form(token, w.scope(route))), [e]);
  }

  lemma EarnedNow(w: World, log: seq<Event>, e: Event, r: Request)
    requires r.FetchingMinted? && Exchanged(w, log, e.id, r.route, r.token, r.sub, r.minted)
    requires e.Checked? && e.minted == r.minted && e.sub == r.sub
    ensures Earned(w, log + [e], e.id, r.route, r.token, r.sub, r.minted)
  {
    hide Inbound;
    InLast(log, e);
    InboundGrows(log, log + [e], e.id, r.route, r.token, r.sub);
  }

  lemma CheckMintedKeeps(w: World, s: State, id: nat, r: Request, keys: Keys)
    requires Inv(w, s) && id in s.requests && s.requests[id] == r && r.FetchingMinted?
    requires KeysServed(w, s.log, id, keys, s.clock)
    ensures Inv(w, CheckMinted(w, s, id, r, keys))
  {
    hide CacheInv, LogInv, CallsInv, KeysServed, MintedFor, Earned, Exchanged;
    assert Behind(w, s, id, r);
    var d := w.decode(r.minted, keys, s.clock);
    if d.Raised? {
      FaultKeeps(w, s, id, Crashed(id, r.minted, keys, s.clock));
    } else if d.Valid? && d.sub == Some(r.sub) {
      var e := Checked(id, r.minted, r.sub, keys, s.clock);
      EarnedNow(w, s.log, e, r);
      Moves(w, s, id, Ready(r.route, r.token, r.sub, r.minted), [e]);
    } else {
      var e := RejectedMint(id, r.minted, r.sub, keys, s.clock);
      MintIsGenuine(w, s, e, r);
      FaultKeeps(w, s, id, e);
    }
  }

  lemma NoHeaderIsGenuine(w: World, s: State, id: nat, route: Route, header: Option<Token>)
    requires Began(id, route, header) in s.log && (header.None? || w.blank(header.value))
    ensures Genuine(w, s.log, NoHeader(id))
  {
  }

  lemma MintIsGenuine(w: World, s: State, e: Event, r: Request)
    requires e.RejectedMint? && r.FetchingMinted? && Exchanged(w, s.log, e.id, r.route, r.token, r.sub, r.minted)
    requires e.minted == r.minted && e.sub == r.sub && KeysServed(w, s.log, e.id, e.keys, e.at)
    requires !Names(w, e.minted, e.sub, e.keys, e.at)
    ensures Genuine(w, s.log, e)
  {
    hide KeysServed, Exchanged, Names;
  }

  /** What the cache serves is a recent fetch. */
  lemma HitIsGenuine(w: World, s: State, id: nat)
    requires CacheInv(s) && Fresh(w, s)
    ensures Genuine(w, s.log, Hit(s, id))
    ensures forall log :: s.log <= log ==> KeysServed(w, log, id, s.cache.keys, s.clock)
  {
    var fetcher :| Fetched(fetcher, s.cache.keys, s.cache.fetchedAt, s.cache.receivedAt) in s.log;
    forall log | s.log <= log ensures KeysServed(w, log, id, s.cache.keys, s.clock) {
      assert Fetched(fetcher, s.cache.keys, s.cache.fetchedAt, s.cache.receivedAt) in log;
    }
  }

  /** A cache hit of a request that stays where it is. */
  lemma HitKeeps(w: World, s: State, id: nat)
    requires Inv(w, s) && Fresh(w, s) && id in s.requests && (Early(s.requests[id]) || s.requests[id].FetchingMinted?)
    ensures var s' := Goto(s, id, s.requests[id], [Hit(s, id)]);
            Inv(w, s') && KeysServed(w, s'.log, id, s.cache.keys, s.clock)
  {
    hide LogInv, CallsInv, Genuine, KeysServed, MintedFor;
    var r := s.requests[id];
    assert Behind(w, s, id, r) && StatusFits(s.log, id, r);
    HitIsGenuine(w, s, id);
    BehindGrows(w, s, Goto(s, id, r, [Hit(s, id)]), id, r);
    Moves(w, s, id, r, [Hit(s, id)]);
  }

  lemma StartKeeps(w: World, s: State, id: nat)
    requires Inv(w, s) && id in s.requests && s.requests[id].Arrived?
    ensures Inv(w, DoStart(w, s, id, s.requests[id]))
  {
    hide LogInv, CallsInv, CacheInv, Genuine, Validate, KeysServed, MintedFor;
    var r := s.requests[id];
    assert Behind(w, s, id, r) && StatusFits(s.log, id, r);
    if r.inbound.None? || w.blank(r.inbound.value) {
      NoHeaderIsGenuine(w, s, id, r.route, r.inbound);
      FaultKeeps(w, s, id, NoHeader(id));
    } else if Fresh(w, s) {
      HitKeeps(w, s, id);
      InLast(s.log, Hit(s, id));
      ValidateKeeps(w, Goto(s, id, r, [Hit(s, id)]), id, r.route, r.inbound.value, s.cache.keys);
    } else {
      var wait := FetchingInbound(r.route, r.inbound.value, s.clock);
      assert s.log + [] == s.log;
      Moves(w, s, id, wait, []);
    }
  }

  /** A late answer may overwrite a newer entry; its stamp is still no later than the
      moment its keys arrived, and its keys are those of a fetch. */
  lemma JwksKeeps(w: World, s: State, id: nat, reply: Reply<Keys>)
    requires Inv(w, s) && id in s.requests && (s.requests[id].FetchingInbound? || s.requests[id].FetchingMinted?)
    ensures Inv(w, DoJwks(w, s, id, s.requests[id], reply))
  {
    hide LogInv, CallsInv, CacheInv, Validate, CheckMinted, MintedFor, KeysServed;
    var r := s.requests[id];
    assert Behind(w, s, id, r) && StatusFits(s.log, id, r);
    match reply
    case Odd => FaultKeeps(w, s, id, OddAnswer(id));
    case Bad =>
      assert FaultStatus(s.log, FetchFailed(id)) == if r.FetchingInbound? then 401 else 500;
      FaultKeeps(w, s, id, FetchFailed(id));
    case Good(keys) =>
      KeysKeep(w, s, id, keys);
      var s2 := Goto(s, id, r, [Fetched(id, keys, r.started, s.clock)]).(cache := Held(keys, r.started, s.clock));
      hide Inv, Behind;
      if r.FetchingInbound? {
        ValidateKeeps(w, s2, id, r.route, r.token, keys);
      } else {
        CheckMintedKeeps(w, s2, id, r, keys);
      }
  }

  /** Keys arriving for a request that waits for them. */
  lemma KeysKeep(w: World, s: State, id: nat, keys: Keys)
    requires Inv(w, s) && id in s.requests && (s.requests[id].FetchingInbound? || s.requests[id].FetchingMinted?)
    ensures var r := s.requests[id];
            var s2 := Goto(s, id, r, [Fetched(id, keys, r.started, s.clock)]).(cache := Held(keys, r.started, s.clock));
            && Inv(w, s2) && s2.requests[id] == r && KeysServed(w, s2.log, id, keys, s2.clock)
            && (r.FetchingInbound? ==> Began(id, r.route, Some(r.token)) in s2.log)
  {
    hide LogInv, CallsInv, MintedFor, KeysServed;
    var r := s.requests[id];
    assert Behind(w, s, id, r) && StatusFits(s.log, id, r);
    var e := Fetched(id, keys, r.started, s.clock);
    var s1 := Goto(s, id, r, [e]);
    InLast(s.log, e);
    BehindGrows(w, s, s1, id, r);
    Moves(w, s, id, r, [e]);
    CacheOnly(w, s1, s1.(cache := Held(keys, r.started, s.clock)));
    ServedNow(w, s1.log, id, keys, r.started, s.clock);
  }

  lemma ServedNow(w: World, log: seq<Event>, id: nat, keys: Keys, started: int, at: int)
    requires Fetched(id, keys, started, at) in log && started <= at
    ensures KeysServed(w, log, id, keys, at)
  {
  }

  /** Time passing or a consistent cache write concerns no request. */
  lemma CacheOnly(w: World, s: State, s': State)
    requires Inv(w, s) && CacheInv(s') && s'.requests == s.requests && s'.log == s.log && s.clock <= s'.clock
    ensures Inv(w, s')
  {
    hide Behind, LogInv;
    forall x | x in s'.requests ensures Behind(w, s', x, s'.requests[x]) { BehindGrows(w, s, s', x, s.requests[x]); }
  }

  lemma ExchangeKeeps(w: World, s: State, id: nat, reply: Reply<Token>)
    requires Inv(w, s) && id in s.requests && s.requests[id].Exchanging?
    ensures Inv(w, DoExchange(w, s, id, s.requests[id], reply))
  {
    hide LogInv, CallsInv, CacheInv, CheckMinted, Inbound, MintedFor, KeysServed;
    var r := s.requests[id];
    assert Behind(w, s, id, r) && StatusFits(s.log, id, r);
    if reply.Odd? {
      FaultKeeps(w, s, id, OddAnswer(id));
    } else if reply.Bad? || w.blank(reply.value) {
      FaultKeeps(w, s, id, BadAnswer(id));
    } else {
      var wait := FetchingMinted(r.route, r.token, r.sub, reply.value, s.clock);
      var e := Minted(id, r.form, reply.value);
      InLast(s.log, e);
      InboundGrows(s.log, s.log + [e], id, r.route, r.token, r.sub);
      var s1 := Goto(s, id, wait, [e]);
      assert e in [e] && Genuine(w, s.log, e);
      Moves(w, s, id, wait, [e]);
      if Fresh(w, s) {
        HitKeeps(w, s1, id);
        assert Hit(s1, id) == Hit(s, id);
        var s2 := Goto(s1, id, wait, [Hit(s, id)]);
        assert s2 == Goto(s, id, wait, [e, Hit(s, id)]) by { TwoEvents(s, id, wait, e, Hit(s, id)); }
        CheckMintedKeeps(w, s2, id, wait, s.cache.keys);
      }
    }
  }

  lemma TwoEvents(s: State, id: nat, r: Request, e: Event, f: Event)
    ensures Goto(Goto(s, id, r, [e]), id, r, [f]) == Goto(s, id, r, [e, f])
  {
    assert s.log + [e] + [f] == s.log + [e, f];
    assert s.requests[id := r][id := r] == s.requests[id := r];
  }

  lemma InboundGrows(log: seq<Event>, log': seq<Event>, id: nat, route: Route, token: Token, sub: string)
    requires Inbound(log, id, route, token, sub) && forall e :: e in log ==> e in log'
    ensures Inbound(log', id, route, token, sub)
  {
  }

  lemma ForwardKeeps(w: World, s: State, id: nat)
    requires Inv(w, s) && id in s.requests && s.requests[id].Ready?
    ensures Inv(w, Next(w, s, Forward(id)))
  {
    var r := s.requests[id];
    var e := Called(id, r.route, r.minted);
    var s' := Goto(s, id, Proxied, [e]);
    hide Next, Behind, LogInv, Earned, CallsInv, RefusalInv, CacheInv, Fits, CallIsEarned, Genuine;
    NextForward(w, s, id);
    ReadyIsEarned(w, s, id, r);
    LogGrows(w, s.log, e);
    ForwardFits(s, id, e);
    ProxiedBehind(w, s', id);
    CallMade(s, s', e);
    AllBehind(w, s, s', id);
    CacheKept(s, s');
    RefusalsKept(s, s', id, Proxied, e);
  }

  lemma NextForward(w: World, s: State, id: nat)
    requires id in s.requests && s.requests[id].Ready?
    ensures var r := s.requests[id];
            Next(w, s, Forward(id)) == Goto(s, id, Proxied, [Called(id, r.route, r.minted)])
  {
  }

  lemma ReadyIsEarned(w: World, s: State, id: nat, r: Request)
    requires r.Ready? && Behind(w, s, id, r)
    ensures CallIsEarned(w, s.log, Called(id, r.route, r.minted)) && Genuine(w, s.log, Called(id, r.route, r.minted))
  {
    hide Earned;
  }

  lemma ForwardFits(s: State, id: nat, e: Event)
    requires id in s.requests && s.requests[id].Ready? && e.Called?
    ensures Fits(s, id, Proxied, [e])
  {
    hide MintedFor;
  }

  lemma ProxiedBehind(w: World, s: State, id: nat)
    ensures Behind(w, s, id, Proxied)
  {
  }

  lemma NextKeeps(w: World, s: State, a: Action)
    requires Inv(w, s)
    ensures Inv(w, Next(w, s, a))
  {
    hide Inv, DoStart, DoJwks, DoExchange;
    match a
    case Tick(d) => TickKeeps(w, s, d);
    case Arrive(id, route, token) => ArriveKeeps(w, s, id, route, token);
    case Start(id) => if id in s.requests && s.requests[id].Arrived? { StartKeeps(w, s, id); }
    case JwksReply(id, reply) =>
      if id in s.requests && (s.requests[id].FetchingInbound? || s.requests[id].FetchingMinted?) {
        JwksKeeps(w, s, id, reply);
      }
    case ExchangeReply(id, reply) =>
      if id in s.requests && s.requests[id].Exchanging? { ExchangeKeeps(w, s, id, reply); }
    case Forward(id) => if id in s.requests && s.requests[id].Ready? { ForwardKeeps(w, s, id); }
  }

  lemma TickKeeps(w: World, s: State, d: nat)
    requires Inv(w, s)
    ensures Inv(w, s.(clock := s.clock + d))
  {
    CacheOnly(w, s, s.(clock := s.clock + d));
  }

  lemma ArriveKeeps(w: World, s: State, id: nat, route: Route, token: Option<Token>)
    requires Inv(w, s)
    ensures Inv(w, Next(w, s, Arrive(id, route, token)))
  {
    if id !in s.requests {
      hide LogInv, CallsInv, CacheInv, MintedFor;
      InLast(s.log, Began(id, route, token));
      Moves(w, s, id, Arrived(route, token), [Began(id, route, token)]);
    }
  }

  lemma {:induction false} RunKeeps(w: World, actions: seq<Action>)
    ensures Inv(w, Run(w, INIT, actions))
    decreases |actions|
  {
    hide Inv, Next;
    if actions == [] {
      InitHolds(w);
    } else {
      RunKeeps(w, actions[..|actions| - 1]);
      NextKeeps(w, Run(w, INIT, actions[..|actions| - 1]), actions[|actions| - 1]);
    }
  }

  lemma InitHolds(w: World)
    ensures Inv(w, INIT)
  {
  }

  // ------------------------------------------------------------- the guarantees

  /** The identity guarantee. In every interleaving, each orchestrator call carries a
      token minted earlier in that same request, from that request's own inbound token,
      for that route's scope, and both tokens verified to the same subject with keys that
      were really served. */
  lemma CallsCarryTheCaller(w: World, actions: seq<Action>, i: nat) returns (inbound: Token, sub: string)
    requires var log := Run(w, INIT, actions).log; i < |log| && log[i].Called?
    ensures var log := Run(w, INIT, actions).log;
            && Earned(w, log[..i], log[i].id, log[i].route, inbound, sub, log[i].minted)
            && (exists keys, at :: Usable(w, inbound, sub, keys, at) && KeysServed(w, log, log[i].id, keys, at))
            && (exists keys, at :: Names(w, log[i].minted, sub, keys, at) && KeysServed(w, log, log[i].id, keys, at))
  {
    hide Run, Behind, Earned, Genuine, RefusalInv;
    RunKeeps(w, actions);
    var log := Run(w, INIT, actions).log;
    assert CallIsEarned(w, log[..i], log[i]);
    inbound, sub :| Earned(w, log[..i], log[i].id, log[i].route, inbound, sub, log[i].minted);
    EarnedIsGenuine(w, log, i, inbound, sub);
  }

  lemma EarnedIsGenuine(w: World, log: seq<Event>, i: nat, inbound: Token, sub: string)
    requires LogInv(w, log) && i < |log| && log[i].Called?
    requires Earned(w, log[..i], log[i].id, log[i].route, inbound, sub, log[i].minted)
    ensures exists keys, at :: Usable(w, inbound, sub, keys, at) && KeysServed(w, log, log[i].id, keys, at)
    ensures exists keys, at :: Names(w, log[i].minted, sub, keys, at) && KeysServed(w, log, log[i].id, keys, at)
  {
    hide CallIsEarned, Usable, Names, KeysServed, LogInv;
    var k1, t1 :| Validated(log[i].id, inbound, sub, k1, t1) in log[..i];
    var k2, t2 :| Checked(log[i].id, log[i].minted, sub, k2, t2) in log[..i];
    var a := PastIsGenuine(w, log, i, Validated(log[i].id, inbound, sub, k1, t1));
    var b := PastIsGenuine(w, log, i, Checked(log[i].id, log[i].minted, sub, k2, t2));
    ServedLater(w, log[..a], log, log[i].id, k1, t1);
    ServedLater(w, log[..b], log, log[i].id, k2, t2);
  }

  lemma ServedLater(w: World, past: seq<Event>, log: seq<Event>, id: nat, keys: Keys, at: int)
    requires KeysServed(w, past, id, keys, at) && past <= log
    ensures KeysServed(w, log, id, keys, at)
  {
    var fetcher, started, received :|
      Fetched(fetcher, keys, started, received) in past && started <= received <= at &&
      ((fetcher == id && received == at) || at - started < w.ttl);
    assert Fetched(fetcher, keys, started, received) in log;
  }

  lemma PastIsGenuine(w: World, log: seq<Event>, i: nat, e: Event) returns (a: nat)
    requires LogInv(w, log) && i < |log| && e in log[..i]
    ensures a < i && log[a] == e && Genuine(w, log[..a], e)
  {
    hide Genuine, CallIsEarned;
    a :| 0 <= a < i && log[..i][a] == e;
    assert log[a] == e;
  }

  /** Fail closed: a request calls the orchestrator at most once, and one that was refused
      with any status never calls it. */
  lemma RefusedNeverCalls(w: World, actions: seq<Action>, i: nat)
    requires var log := Run(w, INIT, actions).log; i < |log| && log[i].Called?
    ensures var s := Run(w, INIT, actions);
            && s.log[i].id in s.requests && s.requests[s.log[i].id] == Proxied
            && forall j :: 0 <= j < |s.log| && s.log[j].Called? && s.log[j].id == s.log[i].id ==> i == j
  {
    hide Run, Behind, LogInv, RefusalInv;
    RunKeeps(w, actions);
  }

  /** Every verification, in every interleaving, used keys the JWKS endpoint gave: in that
      request at that moment, or to the cache by a fetch that began less than the TTL
      before, even when overlapping fetches finished out of order. */
  lemma KeysAreRecent(w: World, actions: seq<Action>, i: nat)
    requires var log := Run(w, INIT, actions).log; i < |log| && (log[i].Validated? || log[i].Checked?)
    ensures var log := Run(w, INIT, actions).log;
            KeysServed(w, log[..i], log[i].id, log[i].keys, log[i].at)
  {
    hide Run, Behind, RefusalInv, KeysServed, InboundSub;
    RunKeeps(w, actions);
    var log := Run(w, INIT, actions).log;
    assert Genuine(w, log[..i], log[i]);
  }

  /** The request's key fetch failed before a token was minted for it. */
  ghost predicate InboundFetchFailed(log: seq<Event>, id: nat) {
    exists i :: 0 <= i < |log| && log[i] == FetchFailed(id) && !MintedFor(log[..i], id)
  }

  /** Its inbound token did not verify: with the keys it was given, no subject may use it. */
  ghost predicate InboundRejected(w: World, log: seq<Event>, id: nat) {
    exists token, keys, at | forall sub :: !Usable(w, token, sub, keys, at) :: Rejected(id, token, keys, at) in log
  }

  /** Its minted token did not verify to the subject of its inbound one. */
  ghost predicate MintRejected(w: World, log: seq<Event>, id: nat) {
    exists minted, sub, keys, at | !Names(w, minted, sub, keys, at) :: RejectedMint(id, minted, sub, keys, at) in log
  }

  /** How a request can be refused. With 401 if and only if it had no usable header, its key
      fetch failed before a token was minted, or its inbound token did not verify. With 502
      if and only if its own token endpoint's answer was bad or blank, or the minted token
      did not verify or named another subject. With 500 if and only if its key fetch failed
      after a token was minted, its JWKS or token endpoint's answer was odd, or verifying
      one of its tokens raised. With nothing else. */
  lemma StatusIff(w: World, actions: seq<Action>, id: nat)
    requires id in Run(w, INIT, actions).requests
    ensures var s := Run(w, INIT, actions);
            && (s.requests[id].Refused? ==> s.requests[id].status in {401, 500, 502})
            && (s.requests[id] == Refused(401) <==>
                  NoHeader(id) in s.log || InboundFetchFailed(s.log, id) || InboundRejected(w, s.log, id))
            && (s.requests[id] == Refused(502) <==> BadAnswer(id) in s.log || MintRejected(w, s.log, id))
            && (s.requests[id] == Refused(500) <==>
                  RecheckFetchFailed(s.log, id) || OddAnswer(id) in s.log || CrashedFor(w, s.log, id))
  {
    hide Run, Behind, CacheInv, CallsInv, MintedFor, RecheckFetchFailed, CrashedFor, Genuine, CallIsEarned,
         InboundFetchFailed, InboundRejected, MintRejected;
    RunKeeps(w, actions);
    var s := Run(w, INIT, actions);
    assert StatusFits(s.log, id, s.requests[id]);
    WaysTo401(w, s.log, id);
    WaysTo502(w, s.log, id);
    WaysTo500(w, s.log, id);
  }

  lemma WaysTo401(w: World, log: seq<Event>, id: nat)
    requires LogInv(w, log)
    ensures EndedBy(log, id, 401) <==>
            NoHeader(id) in log || InboundFetchFailed(log, id) || InboundRejected(w, log, id)
  {
    hide MintedFor, CallIsEarned, KeysServed, Usable, Exchanged;
    if i :| 0 <= i < |log| && Fault(log[i]) && log[i].id == id && FaultStatus(log[..i], log[i]) == 401 {
      assert Genuine(w, log[..i], log[i]) && log[i] in log;
      if log[i].Rejected? { assert Rejected(id, log[i].token, log[i].keys, log[i].at) in log; }
    }
    if NoHeader(id) in log {
      var i :| 0 <= i < |log| && log[i] == NoHeader(id);
      assert Fault(log[i]) && FaultStatus(log[..i], log[i]) == 401;
    }
    if InboundRejected(w, log, id) {
      var token, keys, at :| Rejected(id, token, keys, at) in log;
      var i :| 0 <= i < |log| && log[i] == Rejected(id, token, keys, at);
      assert Fault(log[i]) && FaultStatus(log[..i], log[i]) == 401;
    }
  }

  lemma WaysTo502(w: World, log: seq<Event>, id: nat)
    requires LogInv(w, log)
    ensures EndedBy(log, id, 502) <==> BadAnswer(id) in log || MintRejected(w, log, id)
  {
    hide MintedFor, CallIsEarned, KeysServed, Names, Exchanged;
    if i :| 0 <= i < |log| && Fault(log[i]) && log[i].id == id && FaultStatus(log[..i], log[i]) == 502 {
      assert Genuine(w, log[..i], log[i]) && log[i] in log;
      if log[i].RejectedMint? {
        assert RejectedMint(id, log[i].minted, log[i].sub, log[i].keys, log[i].at) in log;
      }
    }
    if BadAnswer(id) in log {
      var i :| 0 <= i < |log| && log[i] == BadAnswer(id);
      assert Fault(log[i]) && FaultStatus(log[..i], log[i]) == 502;
    }
    if MintRejected(w, log, id) {
      var minted, sub, keys, at :| RejectedMint(id, minted, sub, keys, at) in log;
      var i :| 0 <= i < |log| && log[i] == RejectedMint(id, minted, sub, keys, at);
      assert Fault(log[i]) && FaultStatus(log[..i], log[i]) == 502;
    }
  }

  lemma WaysTo500(w: World, log: seq<Event>, id: nat)
    requires LogInv(w, log)
    ensures EndedBy(log, id, 500) <==> RecheckFetchFailed(log, id) || OddAnswer(id) in log || CrashedFor(w, log, id)
  {
    hide MintedFor, CallIsEarned, KeysServed, Usable, Names, Exchanged;
    if i :| 0 <= i < |log| && Fault(log[i]) && log[i].id == id && FaultStatus(log[..i], log[i]) == 500 {
      assert Genuine(w, log[..i], log[i]) && log[i] in log;
      assert log[i].Crashed? ==> Crashed(id, log[i].token, log[i].keys, log[i].at) in log;
    }
    if OddAnswer(id) in log {
      var i :| 0 <= i < |log| && log[i] == OddAnswer(id);
      assert Fault(log[i]) && FaultStatus(log[..i], log[i]) == 500;
    }
    if token, keys, at :| w.decode(token, keys, at).Raised? && Crashed(id, token, keys, at) in log {
      var i :| 0 <= i < |log| && log[i] == Crashed(id, token, keys, at);
      assert Fault(log[i]) && FaultStatus(log[..i], log[i]) == 500;
    }
  }

  // One input for each way.

  /** The keys expire between the inbound check and the re-check, and the second fetch
      fails. The exchange failure this stands for would be a 502. */
  lemma RecheckOutageIs500(w: World, keys: Keys, token: Token, minted: Token, route: Route, sub: string)
    requires w.ttl > 0 && !w.blank(token) && !w.blank(minted) && InboundSub(w, token, keys, 0) == Some(sub)
    ensures var s := Run(w, INIT, [Arrive(1, route, Some(token)), Start(1), JwksReply(1, Good(keys)), Tick(w.ttl),
                                   ExchangeReply(1, Good(minted)), JwksReply(1, Bad)]);
            s.requests == map[1 := Refused(500)] && RecheckFetchFailed(s.log, 1) && OddAnswer(1) !in s.log
  {
    var acts := [Arrive(1, route, Some(token)), Start(1), JwksReply(1, Good(keys)), Tick(w.ttl),
                 ExchangeReply(1, Good(minted)), JwksReply(1, Bad)];
    SixSteps(w, INIT, acts);
    OutageStart(w, keys, token, route, sub);
    hide Run, InboundSub;
    OutageEnd(w, keys, token, minted, route, sub);
  }

  lemma OutageEnd(w: World, keys: Keys, token: Token, minted: Token, route: Route, sub: string)
    requires w.ttl > 0 && !w.blank(minted)
    ensures var s3 := Validated1(w, keys, token, route, sub);
            var s := Next(w, Next(w, Next(w, s3, Tick(w.ttl)), ExchangeReply(1, Good(minted))), JwksReply(1, Bad));
            s.requests == map[1 := Refused(500)] && RecheckFetchFailed(s.log, 1) && OddAnswer(1) !in s.log
  {
    var s4 := Validated1(w, keys, token, route, sub).(clock := w.ttl);
    var wait, form := FetchingMinted(route, token, sub, minted, w.ttl), Form(token, w.scope(route));
    var s5 := Goto(s4, 1, wait, [Minted(1, form, minted)]);
    var s6 := Goto(s5, 1, Refused(500), [FetchFailed(1)]);
    assert Next(w, s4, ExchangeReply(1, Good(minted))) == s5;
    assert Next(w, s5, JwksReply(1, Bad)) == s6;
    assert s6.log[4] == FetchFailed(1) && s6.log[..4][3].Minted?;
  }

  /** The first request after its inbound token was validated. */
  function Validated1(w: World, keys: Keys, token: Token, route: Route, sub: string): State {
    State(0, Held(keys, 0, 0), map[1 := Exchanging(route, token, sub, Form(token, w.scope(route)))],
          [Began(1, route, Some(token)), Fetched(1, keys, 0, 0), Validated(1, token, sub, keys, 0)])
  }

  /** The first request while its keys are fetched. */
  function Fetching1(token: Token, route: Route): State {
    State(0, Empty, map[1 := FetchingInbound(route, token, 0)], [Began(1, route, Some(token))])
  }

  lemma FetchStart(w: World, token: Token, route: Route)
    requires !w.blank(token)
    ensures Next(w, Next(w, INIT, Arrive(1, route, Some(token))), Start(1)) == Fetching1(token, route)
  {
    var s1 := State(0, Empty, map[1 := Arrived(route, Some(token))], [Began(1, route, Some(token))]);
    assert Next(w, INIT, Arrive(1, route, Some(token))) == s1;
    assert s1.log + [] == s1.log;
  }

  lemma OutageStart(w: World, keys: Keys, token: Token, route: Route, sub: string)
    requires !w.blank(token) && InboundSub(w, token, keys, 0) == Some(sub)
    ensures Next(w, Next(w, Next(w, INIT, Arrive(1, route, Some(token))), Start(1)), JwksReply(1, Good(keys))) ==
            Validated1(w, keys, token, route, sub)
  {
    FetchStart(w, token, route);
    var s2 := Fetching1(token, route);
    assert s2.log + [Fetched(1, keys, 0, 0)] + [Validated(1, token, sub, keys, 0)] ==
           [Began(1, route, Some(token)), Fetched(1, keys, 0, 0), Validated(1, token, sub, keys, 0)];
  }

  /** A JWKS answer such as `[]` during inbound validation. */
  lemma OddJwksIs500(w: World, token: Token, route: Route)
    requires !w.blank(token)
    ensures var s := Run(w, INIT, [Arrive(1, route, Some(token)), Start(1), JwksReply(1, Odd)]);
            s.requests == map[1 := Refused(500)] && !MintedFor(s.log, 1)
  {
    ThreeSteps(w, INIT, [Arrive(1, route, Some(token)), Start(1), JwksReply(1, Odd)]);
    FetchStart(w, token, route);
    hide Run;
  }

  /** A token answer such as `[]`. */
  lemma OddExchangeIs500(w: World, keys: Keys, token: Token, route: Route, sub: string)
    requires !w.blank(token) && InboundSub(w, token, keys, 0) == Some(sub)
    ensures var s := Run(w, INIT, [Arrive(1, route, Some(token)), Start(1), JwksReply(1, Good(keys)),
                                   ExchangeReply(1, Odd)]);
            s.requests == map[1 := Refused(500)] && !MintedFor(s.log, 1)
  {
    var acts := [Arrive(1, route, Some(token)), Start(1), JwksReply(1, Good(keys)), ExchangeReply(1, Odd)];
    assert acts[..3] == [Arrive(1, route, Some(token)), Start(1), JwksReply(1, Good(keys))];
    ThreeSteps(w, INIT, acts[..3]);
    OutageStart(w, keys, token, route, sub);
    assert Run(w, INIT, acts) == Next(w, Run(w, INIT, acts[..3]), acts[3]);
    hide Run, InboundSub;
  }

  /** A key set on which verifying the inbound token raises. */
  lemma RaisingKeysAre500(w: World, keys: Keys, token: Token, route: Route)
    requires !w.blank(token) && w.decode(token, keys, 0).Raised?
    ensures var s := Run(w, INIT, [Arrive(1, route, Some(token)), Start(1), JwksReply(1, Good(keys))]);
            s.requests == map[1 := Refused(500)] && OddAnswer(1) !in s.log && !MintedFor(s.log, 1)
  {
    ThreeSteps(w, INIT, [Arrive(1, route, Some(token)), Start(1), JwksReply(1, Good(keys))]);
    FetchStart(w, token, route);
    hide Run;
  }

  lemma ThreeSteps(w: World, s: State, acts: seq<Action>)
    requires |acts| == 3
    ensures Run(w, s, acts) == Next(w, Next(w, Next(w, s, acts[0]), acts[1]), acts[2])
  {
    hide Next;
    assert acts[..2][..1] == acts[..1] && acts[..1][..0] == [];
    assert Run(w, s, acts[..1]) == Next(w, s, acts[0]);
    assert Run(w, s, acts[..2]) == Next(w, Run(w, s, acts[..1]), acts[1]);
  }

  lemma SixSteps(w: World, s: State, acts: seq<Action>)
    requires |acts| == 6
    ensures Run(w, s, acts) ==
            Next(w, Next(w, Next(w, Next(w, Next(w, Next(w, s, acts[0]), acts[1]), acts[2]), acts[3]), acts[4]),
                 acts[5])
  {
    hide Next;
    assert acts[..5][..4] == acts[..4] && acts[..4][..3] == acts[..3] && acts[..3][..2] == acts[..2];
    assert acts[..2][..1] == acts[..1] && acts[..1][..0] == [];
    assert Run(w, s, acts[..1]) == Next(w, s, acts[0]);
    assert Run(w, s, acts[..2]) == Next(w, Run(w, s, acts[..1]), acts[1]);
    assert Run(w, s, acts[..3]) == Next(w, Run(w, s, acts[..2]), acts[2]);
    assert Run(w, s, acts[..4]) == Next(w, Run(w, s, acts[..3]), acts[3]);
    assert Run(w, s, acts[..5]) == Next(w, Run(w, s, acts[..4]), acts[4]);
  }
}

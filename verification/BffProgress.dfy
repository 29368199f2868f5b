/** Where every request of the BFF stands, from the log alone; and that a good one is
    forwarded. */
module BffProgress {
  import opened Lists
  import opened Bff

  /** What an event means for the progress of its request. */
  datatype Mark = Other | InboundOk | MintGiven | MintOk | CallMade | Failed

  function MarkOf(e: Event): Mark {
    match e
    case Validated(_, _, _, _, _) => InboundOk
    case Minted(_, _, _) => MintGiven
    case Checked(_, _, _, _, _) => MintOk
    case Called(_, _, _) => CallMade
    case _ => if Fault(e) then Failed else Other
  }

  ghost predicate Has(log: seq<Event>, id: nat, m: Mark) {
    exists i :: 0 <= i < |log| && log[i].id == id && MarkOf(log[i]) == m
  }

  /** A request has gone exactly as far as its own events say. */
  ghost predicate Stands(log: seq<Event>, id: nat, r: Request) {
    && (Has(log, id, InboundOk) <== r.Exchanging? || r.FetchingMinted? || r.Ready? || r.Proxied?)
    && (Has(log, id, InboundOk) ==> !r.Arrived? && !r.FetchingInbound?)
    && (Has(log, id, MintGiven) <== r.FetchingMinted? || r.Ready? || r.Proxied?)
    && (Has(log, id, MintGiven) ==> !r.Arrived? && !r.FetchingInbound? && !r.Exchanging?)
    && (Has(log, id, MintOk) <==> r.Ready? || r.Proxied?)
    && (Has(log, id, CallMade) <==> r.Proxied?)
    && (Has(log, id, Failed) <==> r.Refused?)
  }

  ghost predicate Unheard(log: seq<Event>, id: nat) { forall m :: m != Other ==> !Has(log, id, m) }

  ghost predicate AllStand(s: State) {
    && (forall id :: id in s.requests ==> Stands(s.log, id, s.requests[id]))
    && (forall id :: id !in s.requests ==> Unheard(s.log, id))
  }

  lemma HasSnoc(log: seq<Event>, e: Event, id: nat, m: Mark)
    ensures Has(log + [e], id, m) <==> Has(log, id, m) || (e.id == id && MarkOf(e) == m)
  {
    hide MarkOf;
    var log' := log + [e];
    assert log'[|log|] == e && forall i :: 0 <= i < |log| ==> log'[i] == log[i];
    if i :| 0 <= i < |log| && log[i].id == id && MarkOf(log[i]) == m {
      assert log'[i].id == id && MarkOf(log'[i]) == m;
    }
  }

  /** The move a marked event belongs to. */
  predicate Fitting(before: Request, after: Request, m: Mark) {
    match m
    case Other =>
      && !before.Refused? && !after.Refused?
      && (before.Proxied? <==> after.Proxied?) && (before.Ready? <==> after.Ready?)
      && (before.Exchanging? <==> after.Exchanging?) && (before.FetchingMinted? <==> after.FetchingMinted?)
    case InboundOk => (before.Arrived? || before.FetchingInbound?) && after.Exchanging?
    case MintGiven => before.Exchanging? && after.FetchingMinted?
    case MintOk => before.FetchingMinted? && after.Ready?
    case CallMade => before.Ready? && after.Proxied?
    case Failed => !before.Ready? && !before.Proxied? && !before.Refused? && after.Refused?
  }

  lemma Moved(s: State, id: nat, r: Request, e: Event)
    requires AllStand(s) && id in s.requests && e.id == id && Fitting(s.requests[id], r, MarkOf(e))
    ensures AllStand(Goto(s, id, r, [e]))
  {
    hide Has, MarkOf;
    var s' := Goto(s, id, r, [e]);
    assert s'.log == s.log + [e];
    forall x, m ensures Has(s'.log, x, m) <==> Has(s.log, x, m) || (x == id && MarkOf(e) == m) {
      HasSnoc(s.log, e, x, m);
    }
    forall x | x in s'.requests ensures Stands(s'.log, x, s'.requests[x]) {
      assert Stands(s.log, x, s.requests[x]);
    }
  }

  lemma MovedQuietly(s: State, id: nat, r: Request)
    requires AllStand(s) && id in s.requests && s.requests[id].Arrived? && r.FetchingInbound?
    ensures AllStand(Goto(s, id, r, []))
  {
    hide Has;
    assert s.log + [] == s.log;
    assert Stands(s.log, id, s.requests[id]);
  }

  lemma ValidateMoves(w: World, s: State, id: nat, route: Route, token: Token, keys: Keys)
    requires AllStand(s) && id in s.requests && (s.requests[id].Arrived? || s.requests[id].FetchingInbound?)
    ensures AllStand(Validate(w, s, id, route, token, keys))
  {
    hide AllStand;
    if w.decode(token, keys, s.clock).Raised? {
      Moved(s, id, Refused(500), Crashed(id, token, keys, s.clock));
    } else {
      match InboundSub(w, token, keys, s.clock)
      case None => Moved(s, id, Refused(401), Rejected(id, token, keys, s.clock));
      case Some(sub) =>
        Moved(s, id, Exchanging(route, token, sub, Form(token, w.scope(route))),
              Validated(id, token, sub, keys, s.clock));
    }
  }

  lemma CheckMoves(w: World, s: State, id: nat, keys: Keys)
    requires AllStand(s) && id in s.requests && s.requests[id].FetchingMinted?
    ensures AllStand(CheckMinted(w, s, id, s.requests[id], keys))
  {
    hide AllStand;
    var r := s.requests[id];
    var d := w.decode(r.minted, keys, s.clock);
    if d.Raised? {
      Moved(s, id, Refused(500), Crashed(id, r.minted, keys, s.clock));
    } else if d.Valid? && d.sub == Some(r.sub) {
      Moved(s, id, Ready(r.route, r.token, r.sub, r.minted), Checked(id, r.minted, r.sub, keys, s.clock));
    } else {
      Moved(s, id, Refused(502), RejectedMint(id, r.minted, r.sub, keys, s.clock));
    }
  }

  lemma StartMoves(w: World, s: State, id: nat)
    requires AllStand(s) && id in s.requests && s.requests[id].Arrived?
    ensures AllStand(DoStart(w, s, id, s.requests[id]))
  {
    hide AllStand, Validate;
    var r := s.requests[id];
    if r.inbound.None? || w.blank(r.inbound.value) {
      Moved(s, id, Refused(401), NoHeader(id));
    } else if Fresh(w, s) {
      Moved(s, id, r, Hit(s, id));
      ValidateMoves(w, Goto(s, id, r, [Hit(s, id)]), id, r.route, r.inbound.value, s.cache.keys);
    } else {
      MovedQuietly(s, id, FetchingInbound(r.route, r.inbound.value, s.clock));
    }
  }

  lemma JwksMoves(w: World, s: State, id: nat, reply: Reply<Keys>)
    requires AllStand(s) && id in s.requests && (s.requests[id].FetchingInbound? || s.requests[id].FetchingMinted?)
    ensures AllStand(DoJwks(w, s, id, s.requests[id], reply))
  {
    hide AllStand, Validate, CheckMinted;
    var r := s.requests[id];
    match reply
    case Odd => Moved(s, id, Refused(500), OddAnswer(id));
    case Bad => Moved(s, id, Refused(if r.FetchingInbound? then 401 else 500), FetchFailed(id));
    case Good(keys) =>
      var e := Fetched(id, keys, r.started, s.clock);
      Moved(s, id, r, e);
      var s' := Goto(s, id, r, [e]).(cache := Held(keys, r.started, s.clock));
      OnlyCache(Goto(s, id, r, [e]), s');
      if r.FetchingInbound? { ValidateMoves(w, s', id, r.route, r.token, keys); } else { CheckMoves(w, s', id, keys); }
  }

  lemma OnlyCache(s: State, s': State)
    requires AllStand(s) && s'.log == s.log && s'.requests == s.requests
    ensures AllStand(s')
  {
    hide Stands, Unheard;
  }

  lemma ExchangeMoves(w: World, s: State, id: nat, reply: Reply<Token>)
    requires AllStand(s) && id in s.requests && s.requests[id].Exchanging?
    ensures AllStand(DoExchange(w, s, id, s.requests[id], reply))
  {
    hide AllStand, CheckMinted;
    var r := s.requests[id];
    if reply.Odd? {
      Moved(s, id, Refused(500), OddAnswer(id));
    } else if reply.Bad? || w.blank(reply.value) {
      Moved(s, id, Refused(502), BadAnswer(id));
    } else {
      var wait := FetchingMinted(r.route, r.token, r.sub, reply.value, s.clock);
      var e := Minted(id, r.form, reply.value);
      Moved(s, id, wait, e);
      if Fresh(w, s) {
        var s1 := Goto(s, id, wait, [e]);
        Moved(s1, id, wait, Hit(s, id));
        TwoEvents(s, id, wait, e, Hit(s, id));
        CheckMoves(w, Goto(s, id, wait, [e, Hit(s, id)]), id, s.cache.keys);
      }
    }
  }

  lemma ArriveMoves(s: State, id: nat, route: Route, header: Option<Token>)
    requires AllStand(s) && id !in s.requests
    ensures AllStand(Goto(s, id, Arrived(route, header), [Began(id, route, header)]))
  {
    hide Has;
    var e := Began(id, route, header);
    var s' := Goto(s, id, Arrived(route, header), [e]);
    forall x, m | m != Other ensures Has(s'.log, x, m) <==> Has(s.log, x, m) { HasSnoc(s.log, e, x, m); }
    forall x | x in s'.requests ensures Stands(s'.log, x, s'.requests[x]) {
      if x != id { assert Stands(s.log, x, s.requests[x]); } else { assert Unheard(s.log, id); }
    }
    forall x | x !in s'.requests ensures Unheard(s'.log, x) { assert Unheard(s.log, x); }
  }

  lemma NextMoves(w: World, s: State, a: Action)
    requires AllStand(s)
    ensures AllStand(Next(w, s, a))
  {
    hide AllStand, DoStart, DoJwks, DoExchange;
    match a
    case Tick(d) => OnlyCache(s, s.(clock := s.clock + d));
    case Arrive(id, route, token) => if id !in s.requests { ArriveMoves(s, id, route, token); }
    case Start(id) => if id in s.requests && s.requests[id].Arrived? { StartMoves(w, s, id); }
    case JwksReply(id, reply) =>
      if id in s.requests && (s.requests[id].FetchingInbound? || s.requests[id].FetchingMinted?) {
        JwksMoves(w, s, id, reply);
      }
    case ExchangeReply(id, reply) =>
      if id in s.requests && s.requests[id].Exchanging? { ExchangeMoves(w, s, id, reply); }
    case Forward(id) =>
      if id in s.requests && s.requests[id].Ready? {
        Moved(s, id, Proxied, Called(id, s.requests[id].route, s.requests[id].minted));
      }
  }

  lemma {:induction false} AlwaysStand(w: World, actions: seq<Action>)
    ensures AllStand(Run(w, INIT, actions))
    decreases |actions|
  {
    if actions != [] {
      hide AllStand, Next;
      AlwaysStand(w, actions[..|actions| - 1]);
      NextMoves(w, Run(w, INIT, actions[..|actions| - 1]), actions[|actions| - 1]);
    }
  }

  /** In every interleaving: a request that has had a fault is refused, and no other one is;
      one without a fault waits for its keys, for the exchange, for the keys of the
      re-check, is ready, or has called, according to which of its tokens were verified and
      minted so far. So a request whose tokens both verified is never refused, and the next
      Forward makes its call, with the minted token that was checked. */
  lemma StandsIff(w: World, actions: seq<Action>, id: nat)
    requires id in Run(w, INIT, actions).requests
    ensures var s := Run(w, INIT, actions);
            var r := s.requests[id];
            && (r.Refused? <==> Has(s.log, id, Failed))
            && (r.Arrived? || r.FetchingInbound? <==> !Has(s.log, id, Failed) && !Has(s.log, id, InboundOk))
            && (r.Exchanging? <==>
                  !Has(s.log, id, Failed) && Has(s.log, id, InboundOk) && !Has(s.log, id, MintGiven))
            && (r.FetchingMinted? <==>
                  !Has(s.log, id, Failed) && Has(s.log, id, MintGiven) && !Has(s.log, id, MintOk))
            && (r.Ready? <==> Has(s.log, id, MintOk) && !Has(s.log, id, CallMade))
            && (r.Proxied? <==> Has(s.log, id, CallMade))
  {
    hide Run, Has;
    AlwaysStand(w, actions);
    assert Stands(Run(w, INIT, actions).log, id, Run(w, INIT, actions).requests[id]);
  }

  lemma HeardIsKnown(s: State, id: nat, m: Mark)
    requires AllStand(s) && m != Other && Has(s.log, id, m)
    ensures id in s.requests
  {
    hide Has;
  }

  lemma ForwardCalls(w: World, actions: seq<Action>, id: nat)
    returns (route: Route, token: Token, sub: string, minted: Token)
    requires var log := Run(w, INIT, actions).log; Has(log, id, MintOk) && !Has(log, id, CallMade)
    ensures var s := Run(w, INIT, actions);
            && Earned(w, s.log, id, route, token, sub, minted)
            && Run(w, INIT, actions + [Forward(id)]).log == s.log + [Called(id, route, minted)]
  {
    hide Has, Run, AllStand, Inv, Earned;
    AlwaysStand(w, actions);
    RunKeeps(w, actions);
    var s := Run(w, INIT, actions);
    OneMore(w, actions, Forward(id));
    HeardIsKnown(s, id, MintOk);
    ReadyHere(w, s, id);
    var r := s.requests[id];
    NextForward(w, s, id);
    route, token, sub, minted := r.route, r.token, r.sub, r.minted;
  }

  lemma OneMore(w: World, actions: seq<Action>, a: Action)
    ensures Run(w, INIT, actions + [a]) == Next(w, Run(w, INIT, actions), a)
  {
    hide Next;
    assert (actions + [a])[..|actions|] == actions;
  }

  lemma ReadyHere(w: World, s: State, id: nat)
    requires AllStand(s) && Inv(w, s) && id in s.requests && Has(s.log, id, MintOk) && !Has(s.log, id, CallMade)
    ensures var r := s.requests[id];
            r.Ready? && Earned(w, s.log, id, r.route, r.token, r.sub, r.minted)
  {
    hide Has, Earned, CacheInv, LogInv, CallsInv, RefusalInv;
    assert Stands(s.log, id, s.requests[id]) && Behind(w, s, id, s.requests[id]);
  }

  /** The input: a request with a usable header, good answers and two tokens that verify to
      the same subject is forwarded. */
  lemma GoodRequestIsForwarded(w: World, keys: Keys, token: Token, minted: Token, route: Route, sub: string)
    requires w.ttl > 0 && !w.blank(token) && !w.blank(minted)
    requires Usable(w, token, sub, keys, 0) && Names(w, minted, sub, keys, 0)
    ensures var s := Run(w, INIT, [Arrive(1, route, Some(token)), Start(1), JwksReply(1, Good(keys)),
                                   ExchangeReply(1, Good(minted)), Forward(1)]);
            Called(1, route, minted) in s.log && s.requests == map[1 := Proxied]
  {
    var acts := [Arrive(1, route, Some(token)), Start(1), JwksReply(1, Good(keys)), ExchangeReply(1, Good(minted)),
                 Forward(1)];
    assert acts[..4][..3] == [Arrive(1, route, Some(token)), Start(1), JwksReply(1, Good(keys))];
    ThreeSteps(w, INIT, acts[..4][..3]);
    OutageStart(w, keys, token, route, sub);
    var s3 := Validated1(w, keys, token, route, sub);
    assert Run(w, INIT, acts[..4]) == Next(w, s3, ExchangeReply(1, Good(minted)));
    assert Run(w, INIT, acts) == Next(w, Run(w, INIT, acts[..4]), Forward(1));
    hide Run, InboundSub;
    GoodEnd(w, keys, token, minted, route, sub);
  }

  lemma GoodEnd(w: World, keys: Keys, token: Token, minted: Token, route: Route, sub: string)
    requires w.ttl > 0 && !w.blank(minted) && Names(w, minted, sub, keys, 0)
    ensures var s4 := Next(w, Validated1(w, keys, token, route, sub), ExchangeReply(1, Good(minted)));
            var s := Next(w, s4, Forward(1));
            Called(1, route, minted) in s.log && s.requests == map[1 := Proxied]
  {
    var s3 := Validated1(w, keys, token, route, sub);
    var wait := FetchingMinted(route, token, sub, minted, 0);
    var form := Form(token, w.scope(route));
    var s4 := Goto(s3, 1, wait, [Minted(1, form, minted), Hit(s3, 1)]);
    var s5 := Goto(s4, 1, Ready(route, token, sub, minted), [Checked(1, minted, sub, keys, 0)]);
    assert Next(w, s3, ExchangeReply(1, Good(minted))) == s5;
    var s6 := Goto(s5, 1, Proxied, [Called(1, route, minted)]);
    assert Next(w, s5, Forward(1)) == s6;
    assert s6.log[|s5.log|] == Called(1, route, minted);
  }
}

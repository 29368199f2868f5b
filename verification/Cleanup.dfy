/** scripts/langfuse-cleanup-noise-traces.py: page-numbered scan of the trace store that
    deletes while it pages. */
module Cleanup {
  import opened Lists
  import opened Json

  datatype Trace = Trace(id: string, userId: Json, input: Json, output: Json)

  /** `_is_noise`: no user and no content. */
  predicate IsNoise(t: Trace) { !Truthy(t.userId) && !Truthy(t.input) && !Truthy(t.output) }

  function Noise(): Trace -> bool { (t: Trace) => IsNoise(t) }
  function Worth(): Trace -> bool { (t: Trace) => !IsNoise(t) }
  function HasUser(): Trace -> bool { (t: Trace) => Truthy(t.userId) }
  function ContentOnly(): Trace -> bool { (t: Trace) => !Truthy(t.userId) && (Truthy(t.input) || Truthy(t.output)) }
  function Not(id: string): Trace -> bool { (t: Trace) => t.id != id }

  function NoiseCount(s: seq<Trace>): nat { |Keep(s, Noise())| }

  ghost predicate UniqueIds(s: seq<Trace>) { forall i, j :: 0 <= i < j < |s| ==> s[i].id != s[j].id }

  // ------------------------------------------------- what one full run leaves

  /** The store from the current page on, after the run: the page loses its noise, the
      rest slides down, and the next page starts `limit` further. */
  function Swept(t: seq<Trace>, limit: nat): seq<Trace>
    requires limit > 0
    decreases |t|
  {
    var n := Min(limit, |t|);
    var u := Keep(t[..n], Worth()) + t[n..];
    if |u| <= limit then u else u[..limit] + Swept(u[limit..], limit)
  }

  /** No noise is left when every trace has a user, an input or an output. */
  lemma NoNoiseIff(s: seq<Trace>)
    ensures NoiseCount(s) == 0 <==>
            forall t :: t in s ==> Truthy(t.userId) || Truthy(t.input) || Truthy(t.output)
  {
    KeepMembers(s, Noise());
    hide Keep;
    assert Keep(s, Noise()) != [] ==> Keep(s, Noise())[0] in Keep(s, Noise());
  }

  lemma CountSplits(a: seq<Trace>, b: seq<Trace>)
    ensures NoiseCount(a + b) == NoiseCount(a) + NoiseCount(b)
  {
    KeepConcat(a, b, Noise());
  }

  lemma WorthHasNoNoise(s: seq<Trace>)
    ensures NoiseCount(Keep(s, Worth())) == 0 && |Keep(s, Worth())| + NoiseCount(s) == |s|
  {
    KeepMembers(s, Worth());
    var k := Keep(s, Worth());
    assert forall i :: 0 <= i < |k| ==> k[i] in k && Worth()(k[i]);
    KeepNone(k, Noise());
    KeepSplits(s, Worth(), Noise());
    assert |multiset(Keep(s, Worth())) + multiset(Keep(s, Noise()))| == |multiset(s)|;
  }

  lemma NoNoiseIsAllWorth(s: seq<Trace>)
    requires NoiseCount(s) == 0
    ensures Keep(s, Worth()) == s
  {
    KeepMembers(s, Noise());
    assert forall i :: 0 <= i < |s| ==> s[i] in s && s[i] !in Keep(s, Noise());
    KeepAll(s, Worth());
  }

  /** One step of a sweep, seen by its counts: `page` loses `lost` traces, `u` is what the
      store then holds from this page on. */
  lemma PageCounts(t: seq<Trace>, limit: nat) returns (n: nat, lost: nat, u: seq<Trace>)
    requires limit > 0
    ensures n == Min(limit, |t|) && u == Keep(t[..n], Worth()) + t[n..] && lost == NoiseCount(t[..n])
    ensures |u| == |t| - lost && lost <= n
    ensures NoiseCount(u) == NoiseCount(t) - lost == NoiseCount(t[n..])
  {
    n := Min(limit, |t|);
    lost := NoiseCount(t[..n]);
    u := Keep(t[..n], Worth()) + t[n..];
    assert t == t[..n] + t[n..];
    CountSplits(t[..n], t[n..]);
    WorthHasNoNoise(t[..n]);
    CountSplits(Keep(t[..n], Worth()), t[n..]);
  }

  /** A run keeps every trace with a user or content, in order. */
  lemma {:induction false} SweepKeepsWorth(t: seq<Trace>, limit: nat)
    requires limit > 0
    ensures Keep(Swept(t, limit), Worth()) == Keep(t, Worth())
    decreases |t|
  {
    var n := Min(limit, |t|);
    var u := Keep(t[..n], Worth()) + t[n..];
    assert Keep(u, Worth()) == Keep(t, Worth()) by {
      hide Swept;
      assert t == t[..n] + t[n..];
      KeepConcat(t[..n], t[n..], Worth());
      KeepConcat(Keep(t[..n], Worth()), t[n..], Worth());
      KeepThrough(t[..n], Worth(), Worth());
    }
    if |u| > limit {
      SweepKeepsWorth(u[limit..], limit);
      KeepConcat(u[..limit], u[limit..], Worth());
      KeepConcat(u[..limit], Swept(u[limit..], limit), Worth());
      assert u == u[..limit] + u[limit..];
    }
  }

  /** A page that loses d traces lets at most d slide past unseen, so a run removes at
      least half of the noise. */
  lemma {:induction false} SweepHalvesNoise(t: seq<Trace>, limit: nat)
    requires limit > 0
    ensures 2 * NoiseCount(Swept(t, limit)) <= NoiseCount(t)
    decreases |t|
  {
    hide NoiseCount;
    var n, lost, u := PageCounts(t, limit);
    if |u| <= limit {
      CountBounded(t[n..]);
    } else {
      SweepHalvesNoise(u[limit..], limit);
      SlidPast(t, limit, n, lost, u);
      CountSplits(u[..limit], Swept(u[limit..], limit));
      assert u == u[..limit] + u[limit..];
      CountSplits(u[..limit], u[limit..]);
    }
  }

  lemma CountBounded(s: seq<Trace>)
    ensures NoiseCount(s) <= |s|
  {
  }

  lemma SlidPast(t: seq<Trace>, limit: nat, n: nat, lost: nat, u: seq<Trace>)
    requires limit > 0 && n == Min(limit, |t|) && u == Keep(t[..n], Worth()) + t[n..] && lost == NoiseCount(t[..n])
    requires |u| > limit && |u| == |t| - lost && lost <= n
    ensures n == limit && n + lost <= |t|
    ensures NoiseCount(u[..limit]) == NoiseCount(t[n..n + lost]) <= lost
  {
    var kept := Keep(t[..n], Worth());
    WorthHasNoNoise(t[..n]);
    assert u[..limit] == kept + t[n..n + lost];
    CountSplits(kept, t[n..n + lost]);
    CountBounded(t[n..n + lost]);
  }

  /** No page that loses d traces has noise among the d that slide into its place. */
  predicate NothingSlidesPast(t: seq<Trace>, limit: nat)
    requires limit > 0
    decreases |t|
  {
    var n := Min(limit, |t|);
    var lost := NoiseCount(t[..n]);
    var u := Keep(t[..n], Worth()) + t[n..];
    && NoiseCount(t[n..Min(n + lost, |t|)]) == 0
    && (|u| > limit ==> NothingSlidesPast(u[limit..], limit))
  }

  /** One run clears the store exactly when nothing slides past a page. */
  lemma {:induction false} SweepClearsIff(t: seq<Trace>, limit: nat)
    requires limit > 0
    ensures NoiseCount(Swept(t, limit)) == 0 <==> NothingSlidesPast(t, limit)
    decreases |t|
  {
    hide NoiseCount;
    var n, lost, u := PageCounts(t, limit);
    if |u| <= limit {
      assert Min(n + lost, |t|) == |t|;
      assert t[n..Min(n + lost, |t|)] == t[n..];
    } else {
      SweepClearsIff(u[limit..], limit);
      SlidPast(t, limit, n, lost, u);
      CountSplits(u[..limit], Swept(u[limit..], limit));
    }
  }

  lemma PageOfNoise(t: seq<Trace>, limit: nat)
    requires |t| >= limit && NoiseCount(t) == |t|
    ensures Keep(t[..limit], Worth()) == [] && NoiseCount(t[..limit]) == limit && NoiseCount(t[limit..]) == |t| - limit
  {
    hide NoiseCount, Keep;
    assert t == t[..limit] + t[limit..];
    CountSplits(t[..limit], t[limit..]);
    CountBounded(t[..limit]);
    CountBounded(t[limit..]);
    WorthHasNoNoise(t[..limit]);
  }

  lemma TwoPagesOfNoise(t: seq<Trace>, limit: nat)
    requires limit > 0 && |t| >= 2 * limit && NoiseCount(t) == |t|
    ensures Swept(t, limit) == t[limit..2 * limit] + if |t| > 2 * limit then Swept(t[2 * limit..], limit) else []
    ensures NoiseCount(t[limit..2 * limit]) == limit && NoiseCount(t[2 * limit..]) == |t| - 2 * limit
  {
    hide NoiseCount, Swept, Keep;
    PageOfNoise(t, limit);
    PageOfNoise(t[limit..], limit);
    SweptIs(t, limit, limit, Keep(t[..limit], Worth()));
    assert [] + t[limit..] == t[limit..];
    assert t[limit..][..limit] == t[limit..2 * limit] && t[limit..][limit..] == t[2 * limit..];
  }

  /** Noise only: every second page survives a run. */
  lemma {:induction false} NoiseAloneIsHalved(t: seq<Trace>, limit: nat, m: nat)
    requires limit > 0 && m > 0 && |t| == 2 * m * limit && NoiseCount(t) == |t|
    ensures |Swept(t, limit)| == m * limit && NoiseCount(Swept(t, limit)) == m * limit
    decreases m
  {
    hide Swept, NoiseCount;
    assert |t| == 2 * (m - 1) * limit + 2 * limit && m * limit == (m - 1) * limit + limit;
    assert 0 <= (m - 1) * limit && (m > 1 ==> (m - 1) * limit > 0);
    TwoPagesOfNoise(t, limit);
    if m > 1 {
      NoiseAloneIsHalved(t[2 * limit..], limit, m - 1);
      CountSplits(t[limit..2 * limit], Swept(t[2 * limit..], limit));
    } else {
      assert Swept(t, limit) == t[limit..2 * limit];
    }
  }

  function Rounds(s: seq<Trace>, limit: nat, runs: nat): seq<Trace>
    requires limit > 0
    decreases runs
  {
    if runs == 0 then s else Rounds(Swept(s, limit), limit, runs - 1)
  }

  function Pow2(n: nat): nat { if n == 0 then 1 else 2 * Pow2(n - 1) }

  /** Repeated runs reach zero noise, in logarithmically many runs, and leave exactly the
      traces with a user or content. */
  lemma {:induction false} RepeatedRunsClear(s: seq<Trace>, limit: nat, runs: nat)
    requires limit > 0 && NoiseCount(s) < Pow2(runs)
    ensures Rounds(s, limit, runs) == Keep(s, Worth())
    decreases runs
  {
    hide Swept;
    if runs == 0 {
      NoNoiseIsAllWorth(s);
    } else {
      SweepHalvesNoise(s, limit);
      SweepKeepsWorth(s, limit);
      RepeatedRunsClear(Swept(s, limit), limit, runs - 1);
    }
  }

  // ------------------------------------------------------------- the live store

  /** When a DELETE takes effect. */
  datatype Effect = Now | Later | Never

  /** How the server treats one DELETE: what it answers, and when the trace goes. */
  datatype DeleteReply = DeleteReply(accepted: bool, effect: Effect)

  function PageOf(s: seq<Trace>, offset: nat, limit: nat): seq<Trace> {
    if offset >= |s| then [] else s[offset..offset + Min(limit, |s| - offset)]
  }

  /** The traces that stay when the pending ones chosen by `settled` go. */
  function Stays(pending: set<string>, settled: string -> bool): Trace -> bool {
    (t: Trace) => !(t.id in pending && settled(t.id))
  }

  /** The trace store, oldest first. A delete may take effect at once, before some later page
      is served, or never, whatever it answered. `coming` are the traces that have not
      arrived yet; before the n-th page is served the next `arrivals(n)` of them do. */
  class Langfuse {
    var traces: seq<Trace>
    var coming: seq<Trace>
    var pending: set<string>
    var deletes: nat
    var pages: nat
    const reply: nat -> DeleteReply
    const settles: nat -> string -> bool
    const arrivals: nat -> nat
    const fails: nat -> bool  // the n-th page cannot be fetched

    constructor (traces: seq<Trace>, coming: seq<Trace>, reply: nat -> DeleteReply, settles: nat -> string -> bool,
                 arrivals: nat -> nat, fails: nat -> bool)
      ensures this.traces == traces && this.coming == coming && pending == {} && deletes == 0 && pages == 0
      ensures this.reply == reply && this.settles == settles && this.arrivals == arrivals && this.fails == fails
    {
      this.traces, this.coming, pending, deletes, pages := traces, coming, {}, 0, 0;
      this.reply, this.settles, this.arrivals, this.fails := reply, settles, arrivals, fails;
    }

    /** Deletes are accepted and take effect at once, and nothing arrives. */
    ghost predicate Prompt()
      reads this`pending, this`coming
      ensures Prompt() ==> pending == {} && coming == []
    {
      Quiet() && forall n: nat :: reply(n) == DeleteReply(true, Now)
    }

    /** Nothing is still to go or to come. */
    ghost predicate Quiet()
      reads this`pending, this`coming
    {
      pending == {} && coming == []
    }

    /** Every trace there is or will be. */
    ghost function All(): seq<Trace>
      reads this`traces, this`coming
    {
      traces + coming
    }

    /** Ids are unique, and only noise is still to go. */
    ghost predicate Sound()
      reads this
    {
      UniqueIds(All()) && forall t :: t in All() && t.id in pending ==> IsNoise(t)
    }

    /** `_page_traces`, from the offset of the page on. */
    method Page(offset: nat, limit: nat) returns (batch: Option<seq<Trace>>)
      modifies this
      ensures var n := Min(arrivals(old(pages)), |old(coming)|);
              && traces == Keep(old(traces), Stays(old(pending), settles(old(pages)))) + old(coming)[..n]
              && coming == old(coming)[n..]
      ensures batch == if fails(old(pages)) then None else Some(PageOf(traces, offset, limit))
      ensures pending == old(pending) && pages == old(pages) + 1
    {
      var n := Min(arrivals(pages), |coming|);
      traces := Keep(traces, Stays(pending, settles(pages))) + coming[..n];
      coming := coming[n..];
      batch := if fails(pages) then None else Some(PageOf(traces, offset, limit));
      pages := pages + 1;
    }

    method Delete(id: string) returns (ok: bool)
      modifies this
      ensures var r := reply(old(deletes));
              && ok == r.accepted
              && traces == (if r.effect == Now then Keep(old(traces), Not(id)) else old(traces))
              && pending == if r.effect == Later then old(pending) + {id} else old(pending)
      ensures coming == old(coming) && pages == old(pages)
    {
      var r := reply(deletes);
      deletes := deletes + 1;
      match r.effect {
        case Now => traces := Keep(traces, Not(id));
        case Later => pending := pending + {id};
        case Never =>
      }
      ok := r.accepted;
    }
  }

  datatype Summary = Summary(seen: nat, deleted: nat, withUser: nat, withContent: nat)

  lemma UniqueMember(s: seq<Trace>, x: Trace, y: Trace)
    requires UniqueIds(s) && x in s && y in s && x.id == y.id
    ensures x == y
  {
  }

  lemma {:induction false} UniqueKept(s: seq<Trace>, f: Trace -> bool)
    requires UniqueIds(s)
    ensures UniqueIds(Keep(s, f))
  {
    if s != [] {
      UniqueKept(s[1..], f);
      KeepMembers(s[1..], f);
      var k := Keep(s[1..], f);
      assert forall i :: 0 <= i < |k| ==> k[i] in s[1..];
    }
  }

  lemma DeleteOne(a: seq<Trace>, t: Trace, b: seq<Trace>)
    requires UniqueIds(a + [t] + b)
    ensures Keep(a + [t] + b, Not(t.id)) == a + b
  {
    hide Keep;
    var s := a + [t] + b;
    assert forall i :: 0 <= i < |a| ==> s[i] == a[i];
    assert s[|a|] == t && forall i :: 0 <= i < |b| ==> b[i] == s[|a| + 1 + i];
    KeepAll(a, Not(t.id));
    KeepAll(b, Not(t.id));
    KeepConcat(a + [t], b, Not(t.id));
    KeepSnoc(a, t, Not(t.id));
  }

  lemma DeleteKeepsWorth(s: seq<Trace>, was: seq<Trace>, t: Trace)
    requires UniqueIds(was) && t in was && IsNoise(t) && forall x :: x in s ==> x in was
    ensures Keep(Keep(s, Not(t.id)), Worth()) == Keep(s, Worth())
    ensures forall x :: x in Keep(s, Not(t.id)) ==> x in was
  {
    forall i | 0 <= i < |s| && !IsNoise(s[i]) ensures s[i].id != t.id {
      assert s[i] in s;
      if s[i].id == t.id { UniqueMember(was, s[i], t); }
    }
    KeepThrough(s, Not(t.id), Worth());
    KeepMembers(s, Not(t.id));
  }

  /** The counters after looking at one trace, and at all of `s`. */
  function Looked(r: Summary, t: Trace): Summary {
    if Truthy(t.userId) then r.(withUser := r.withUser + 1)
    else if Truthy(t.input) || Truthy(t.output) then r.(withContent := r.withContent + 1)
    else r.(seen := r.seen + 1)
  }

  function Tally(r: Summary, s: seq<Trace>): (t: Summary)
    ensures t.deleted == r.deleted
  {
    Summary(r.seen + NoiseCount(s), r.deleted, r.withUser + |Keep(s, HasUser())|,
            r.withContent + |Keep(s, ContentOnly())|)
  }

  /** What the counters count: the traces with a user; those without one but with an input or
      an output; and the rest. */
  lemma TallyCounts(s: seq<Trace>)
    ensures var t := Tally(Summary(0, 0, 0, 0), s);
            && t.withUser == |set i | 0 <= i < |s| && Truthy(s[i].userId)|
            && t.withContent ==
               |set i | 0 <= i < |s| && !Truthy(s[i].userId) && (Truthy(s[i].input) || Truthy(s[i].output))|
            && t.seen ==
               |set i | 0 <= i < |s| && !Truthy(s[i].userId) && !Truthy(s[i].input) && !Truthy(s[i].output)|
  {
    hide Truthy;
    KeepCounts(s, HasUser());
    KeepCounts(s, ContentOnly());
    KeepCounts(s, Noise());
    hide Keep;
    assert (set i | 0 <= i < |s| && HasUser()(s[i])) == set i | 0 <= i < |s| && Truthy(s[i].userId);
    assert (set i | 0 <= i < |s| && ContentOnly()(s[i])) ==
           set i | 0 <= i < |s| && !Truthy(s[i].userId) && (Truthy(s[i].input) || Truthy(s[i].output));
    assert (set i | 0 <= i < |s| && Noise()(s[i])) ==
           set i | 0 <= i < |s| && !Truthy(s[i].userId) && !Truthy(s[i].input) && !Truthy(s[i].output);
  }

  lemma {:induction false} KeepCounts(s: seq<Trace>, f: Trace -> bool)
    ensures |Keep(s, f)| == |set i | 0 <= i < |s| && f(s[i])|
  {
    if s != [] {
      var n := |s| - 1;
      KeepCounts(s[..n], f);
      KeepSnoc(s[..n], s[n], f);
      assert s == s[..n] + [s[n]];
      hide Keep;
      var before, all := set i | 0 <= i < n && f(s[..n][i]), set i | 0 <= i < |s| && f(s[i]);
      assert n !in before && all == before + if f(s[n]) then {n} else {};
    }
  }

  lemma TallySnoc(r: Summary, s: seq<Trace>, t: Trace)
    ensures Tally(r, s + [t]) == Looked(Tally(r, s), t)
  {
    hide Keep;
    KeepSnoc(s, t, Noise());
    KeepSnoc(s, t, HasUser());
    KeepSnoc(s, t, ContentOnly());
  }

  lemma TallyConcat(r: Summary, a: seq<Trace>, b: seq<Trace>)
    ensures Tally(Tally(r, a), b) == Tally(r, a + b)
  {
    hide Keep;
    KeepConcat(a, b, Noise());
    KeepConcat(a, b, HasUser());
    KeepConcat(a, b, ContentOnly());
  }

  /** Serving a page loses nothing worth keeping, and nothing at all when nothing is pending. */
  lemma SettlingKeepsWorth(s: seq<Trace>, coming: seq<Trace>, pending: set<string>, settled: string -> bool)
    requires UniqueIds(s + coming) && forall t :: t in s + coming && t.id in pending ==> IsNoise(t)
    ensures var s' := Keep(s, Stays(pending, settled));
            && UniqueIds(s' + coming) && |s'| <= |s| && Keep(s' + coming, Worth()) == Keep(s + coming, Worth())
            && (forall t :: t in s' ==> t in s)
            && (pending == {} ==> s' == s)
  {
    var f := Stays(pending, settled);
    assert forall i :: 0 <= i < |s| ==> (s + coming)[i] == s[i] && s[i] in s + coming;
    KeepThrough(s, f, Worth());
    UniqueParts(s, coming);
    UniqueKept(s, f);
    KeepMembers(s, f);
    KeepConcat(s, coming, Worth());
    KeepConcat(Keep(s, f), coming, Worth());
    UniqueJoined(Keep(s, f), s, coming);
    if pending == {} { KeepAll(s, f); }
  }

  lemma UniqueParts(s: seq<Trace>, coming: seq<Trace>)
    requires UniqueIds(s + coming)
    ensures UniqueIds(s)
    ensures forall x, y :: x in s && y in coming ==> x.id != y.id
  {
    var all := s + coming;
    assert forall i :: 0 <= i < |s| ==> all[i] == s[i];
    forall x, y | x in s && y in coming ensures x.id != y.id {
      var i :| 0 <= i < |s| && s[i] == x;
      var j :| 0 <= j < |coming| && coming[j] == y;
      assert all[|s| + j] == y && all[i] == x;
    }
  }

  /** Fewer traces beside the same coming ones. */
  lemma UniqueJoined(s': seq<Trace>, s: seq<Trace>, coming: seq<Trace>)
    requires UniqueIds(s + coming) && UniqueIds(s') && forall t :: t in s' ==> t in s
    ensures UniqueIds(s' + coming)
  {
    UniqueParts(s, coming);
    var all, all' := s + coming, s' + coming;
    forall i, j | 0 <= i < j < |all'| ensures all'[i].id != all'[j].id {
      if j < |s'| {
        assert all'[i] == s'[i] && all'[j] == s'[j];
      } else if i < |s'| {
        assert all'[i] == s'[i] && all'[i] in s' && all'[j] == coming[j - |s'|] && all'[j] in coming;
      } else {
        assert all'[i] == all[|s| + i - |s'|] && all'[j] == all[|s| + j - |s'|];
      }
    }
  }

  /** One page of the store, after whatever settled and arrived. */
  method Fetch(server: Langfuse, offset: nat, limit: nat) returns (batch: Option<seq<Trace>>)
    requires server.Sound()
    modifies server
    ensures server.Sound() && |server.All()| <= old(|server.All()|) && server.pending == old(server.pending)
    ensures Keep(server.All(), Worth()) == old(Keep(server.All(), Worth()))
    ensures old(server.coming) == [] ==> server.coming == []
    ensures old(server.coming) == [] && server.pending == {} ==> server.traces == old(server.traces)
    ensures server.pages == old(server.pages) + 1
    ensures batch == if server.fails(old(server.pages)) then None else Some(PageOf(server.traces, offset, limit))
  {
    ghost var s, coming := server.traces, server.coming;
    SettlingKeepsWorth(s, coming, server.pending, server.settles(server.pages));
    hide Keep, UniqueIds;
    batch := server.Page(offset, limit);
    assert server.All() == Keep(s, Stays(server.pending, server.settles(old(server.pages)))) + coming;
  }

  ghost predicate Within(s: seq<Trace>, was: seq<Trace>) {
    UniqueIds(s) && |s| <= |was| && forall x :: x in s ==> x in was
  }

  /** One DELETE of a noise trace. */
  method DeleteNoise(server: Langfuse, t: Trace, ghost prompt: bool, ghost was: seq<Trace>, ghost a: seq<Trace>,
                     ghost b: seq<Trace>) returns (ok: bool)
    requires UniqueIds(was + server.coming) && server.Sound() && Within(server.traces, was) && t in was && IsNoise(t)
    requires prompt ==> server.Prompt() && server.traces == a + [t] + b
    modifies server
    ensures server.Sound() && Within(server.traces, was)
    ensures server.coming == old(server.coming) && server.pages == old(server.pages)
    ensures Keep(server.traces, Worth()) == old(Keep(server.traces, Worth()))
    ensures prompt ==> server.Prompt() && ok && server.traces == a + b
  {
    ghost var atStart := server.traces;
    UniqueParts(was, server.coming);
    ok := server.Delete(t.id);
    hide Keep;
    DeleteKeepsWorth(atStart, was, t);
    UniqueKept(atStart, Not(t.id));
    KeepMembers(atStart, Not(t.id));
    UniqueJoined(server.traces, was, server.coming);
    forall x | x in server.All() && x.id in server.pending ensures IsNoise(x) {
      assert x in server.traces || x in server.coming;
      if x.id == t.id {
        UniqueMember(was, x, t);
      } else {
        assert x in atStart + server.coming;
      }
    }
    if prompt { DeleteOne(a, t, b); }
  }

  /** The `for trace in batch` loop: one page, deleting as it goes; stops at the cap. */
  method SweepPage(server: Langfuse, batch: seq<Trace>, execute: bool, max: int, before: Summary,
                   ghost pre: seq<Trace>, ghost post: seq<Trace>) returns (r: Summary)
    requires server.Sound() && server.traces == pre + batch + post
    modifies server
    ensures server.coming == old(server.coming) && server.pages == old(server.pages)
    ensures server.Sound() && |server.All()| <= old(|server.All()|)
    ensures Keep(server.All(), Worth()) == old(Keep(server.All(), Worth()))
    ensures !execute ==> server.traces == old(server.traces) && server.pending == old(server.pending)
    ensures !execute ==> r.deleted == before.deleted
    ensures old(server.Prompt()) ==> server.Prompt()
    ensures before.deleted <= r.deleted && (max > 0 && before.deleted < max ==> r.deleted <= max)
    ensures old(server.Prompt()) ==> |server.traces| + r.deleted == old(|server.traces|) + before.deleted
    ensures old(server.Prompt()) && execute && max >= 0 && r.deleted == 0 ==>
              NoiseCount(batch) == 0 && server.traces == old(server.traces)
    ensures old(server.Prompt()) && execute && max == 0 ==> server.traces == pre + Keep(batch, Worth()) + post
    ensures !execute && max >= 0 && (max > 0 ==> before.deleted < max) ==>
            r == Tally(before, batch).(deleted := r.deleted)
  {
    hide Keep, UniqueIds, NoiseCount, Within, Tally, Langfuse.Sound, Langfuse.Prompt;
    r := before;
    ghost var was, coming, prompt := server.traces, server.coming, server.Prompt();
    var i := 0;
    SoundIsUnique(server);
    StartOfPage(was, batch, before);
    while i < |batch|
      invariant 0 <= i <= |batch|
      invariant server.Sound() && Within(server.traces, was) && (prompt ==> server.Prompt())
      invariant server.coming == coming && server.pages == old(server.pages) && UniqueIds(was + coming)
      invariant Keep(server.traces, Worth()) == Keep(was, Worth())
      invariant !execute ==> server.traces == was && server.pending == old(server.pending)
      invariant !execute ==> r.deleted == before.deleted
      invariant before.deleted <= r.deleted && (max > 0 && before.deleted < max ==> r.deleted < max)
      invariant prompt && execute ==> server.traces == pre + Keep(batch[..i], Worth()) + batch[i..] + post
      invariant prompt && execute ==> r.deleted == before.deleted + NoiseCount(batch[..i])
      invariant r == Tally(before, batch[..i]).(deleted := r.deleted)
    {
      var t := batch[i];
      NextTrace(batch, i, before);
      ghost var a, b := pre + Keep(batch[..i], Worth()), batch[i + 1..] + post;
      Regroup(pre, Keep(batch[..i], Worth()), t, batch[i + 1..], post);
      i := i + 1;
      if Truthy(t.userId) {
        r := r.(withUser := r.withUser + 1);
      } else if Truthy(t.input) || Truthy(t.output) {
        r := r.(withContent := r.withContent + 1);
      } else {
        r := r.(seen := r.seen + 1);
        if execute {
          var ok := DeleteNoise(server, t, prompt, was, a, b);
          if ok { r := r.(deleted := r.deleted + 1); }
        }
        if max != 0 && r.deleted >= max {
          EndOfPage(server.traces, was, coming, batch, i);
          return;
        }
      }
    }
    EndOfPage(server.traces, was, coming, batch, i);
  }

  lemma Regroup(pre: seq<Trace>, kept: seq<Trace>, t: Trace, tail: seq<Trace>, post: seq<Trace>)
    ensures var a, b := pre + kept, tail + post;
            && a + [t] + b == pre + kept + ([t] + tail) + post == pre + (kept + [t]) + tail + post
            && a + b == pre + kept + tail + post
  {
  }

  lemma SoundIsUnique(server: Langfuse)
    requires server.Sound()
    ensures UniqueIds(server.traces) && UniqueIds(server.traces + server.coming)
  {
    UniqueParts(server.traces, server.coming);
  }

  lemma StartOfPage(was: seq<Trace>, batch: seq<Trace>, before: Summary)
    requires UniqueIds(was)
    ensures Within(was, was) && Tally(before, batch[..0]) == before
    ensures Keep(batch[..0], Worth()) == [] && NoiseCount(batch[..0]) == 0
  {
  }

  lemma NextTrace(batch: seq<Trace>, i: nat, before: Summary)
    requires i < |batch|
    ensures batch[i..] == [batch[i]] + batch[i + 1..] && batch[i] in batch
    ensures Keep(batch[..i + 1], Worth()) ==
            Keep(batch[..i], Worth()) + if IsNoise(batch[i]) then [] else [batch[i]]
    ensures NoiseCount(batch[..i + 1]) == NoiseCount(batch[..i]) + if IsNoise(batch[i]) then 1 else 0
    ensures Tally(before, batch[..i + 1]) == Looked(Tally(before, batch[..i]), batch[i])
  {
    hide Keep;
    assert batch[..i + 1] == batch[..i] + [batch[i]];
    KeepSnoc(batch[..i], batch[i], Worth());
    KeepSnoc(batch[..i], batch[i], Noise());
    TallySnoc(before, batch[..i], batch[i]);
  }

  lemma EndOfPage(s: seq<Trace>, was: seq<Trace>, coming: seq<Trace>, batch: seq<Trace>, i: nat)
    requires Within(s, was) && Keep(s, Worth()) == Keep(was, Worth()) && i <= |batch|
    ensures UniqueIds(s) && |s| <= |was|
    ensures Keep(s + coming, Worth()) == Keep(was + coming, Worth())
    ensures |Keep(batch[..i], Worth())| + NoiseCount(batch[..i]) == i
    ensures i == |batch| ==> batch[..i] == batch && batch[i..] == []
    ensures NoiseCount(batch) == 0 ==> Keep(batch, Worth()) == batch
  {
    KeepConcat(s, coming, Worth());
    KeepConcat(was, coming, Worth());
    WorthHasNoNoise(batch[..i]);
    if NoiseCount(batch) == 0 { NoNoiseIsAllWorth(batch); }
  }

  // ------------------------------------------------------------- the whole run

  /** What the store will be, when the next page starts at `off`. */
  function Ahead(s: seq<Trace>, off: nat, limit: nat): seq<Trace>
    requires limit > 0
  {
    if off >= |s| then s else s[..off] + Swept(s[off..], limit)
  }

  lemma PageSwept(pre: seq<Trace>, batch: seq<Trace>, post: seq<Trace>, limit: nat)
    requires limit > 0 && batch != [] && |batch| == Min(limit, |batch + post|)
    ensures Ahead(pre + Keep(batch, Worth()) + post, |pre| + limit, limit) == Ahead(pre + batch + post, |pre|, limit)
  {
    var t, n, kept := batch + post, |batch|, Keep(batch, Worth());
    assert t[..n] == batch && t[n..] == post;
    var s := pre + batch + post;
    assert s[..|pre|] == pre && s[|pre|..] == t;
    assert Ahead(s, |pre|, limit) == pre + Swept(t, limit) by { hide Swept, Keep; }
    hide *;
    SweptIs(t, limit, n, kept);
    AheadShifts(pre, kept, post, limit);
  }

  lemma SweptIs(t: seq<Trace>, limit: nat, n: nat, kept: seq<Trace>)
    requires limit > 0 && n == Min(limit, |t|) && kept == Keep(t[..n], Worth())
    ensures var u := kept + t[n..];
            Swept(t, limit) == if |u| <= limit then u else u[..limit] + Swept(u[limit..], limit)
  {
  }

  lemma AheadShifts(a: seq<Trace>, b: seq<Trace>, c: seq<Trace>, limit: nat)
    requires limit > 0
    ensures var u := b + c;
            Ahead(a + b + c, |a| + limit, limit) ==
            a + (if |u| <= limit then u else u[..limit] + Swept(u[limit..], limit))
  {
    hide Swept;
    var u := b + c;
    assert a + b + c == a + u;
    if |u| > limit {
      assert (a + u)[..|a| + limit] == a + u[..limit] && (a + u)[|a| + limit..] == u[limit..];
      assert a + u[..limit] + Swept(u[limit..], limit) == a + (u[..limit] + Swept(u[limit..], limit));
    }
  }

  lemma StartOfRun(was: seq<Trace>, limit: nat)
    requires limit > 0
    ensures Ahead(was, 0, limit) == Swept(was, limit)
    ensures NoiseCount(was[..0]) == 0 && Tally(Summary(0, 0, 0, 0), was[..0]) == Summary(0, 0, 0, 0)
  {
    if was == [] {
      assert Keep(was[..0], Worth()) + was[0..] == [];
    } else {
      assert was[..0] == [] && was[0..] == was;
    }
  }

  lemma PageCounted(was: seq<Trace>, off: nat, limit: nat, r: Summary)
    requires limit > 0 && off < |was|
    ensures var batch := was[off..off + Min(limit, |was| - off)];
            var upTo := was[..Min(off + limit, |was|)];
            && NoiseCount(upTo) == NoiseCount(was[..off]) + NoiseCount(batch)
            && Tally(r, upTo) == Tally(Tally(r, was[..off]), batch)
  {
    hide Tally, NoiseCount;
    var batch := was[off..off + Min(limit, |was| - off)];
    assert was[..Min(off + limit, |was|)] == was[..off] + batch;
    CountSplits(was[..off], batch);
    TallyConcat(r, was[..off], batch);
  }

  lemma EndOfRun(s: seq<Trace>, was: seq<Trace>)
    requires Keep(s, Worth()) == Keep(was, Worth())
    ensures NoiseCount(was) == 0 ==> |s| >= |was|
    ensures was[..|was|] == was
  {
    if NoiseCount(was) == 0 { NoNoiseIsAllWorth(was); }
  }

  lemma PageEnds(s: seq<Trace>, off: nat, limit: nat)
    requires limit > 0
    ensures PageOf(s, off, limit) == [] <==> off >= |s|
    ensures off >= |s| ==> Ahead(s, off, limit) == s && s[..Min(off, |s|)] == s
    ensures off < |s| ==> Min(off, |s|) == off
  {
  }

  lemma PageParts(s: seq<Trace>, off: nat, limit: nat) returns (pre: seq<Trace>, post: seq<Trace>)
    requires limit > 0 && off < |s|
    ensures var batch := PageOf(s, off, limit);
            && s == pre + batch + post && |pre| == off && |batch| == Min(limit, |batch + post|) && |batch| > 0
            && batch == s[off..off + Min(limit, |s| - off)]
  {
    pre, post := s[..off], s[off + Min(limit, |s| - off)..];
  }

  /** The paging loop of `main`; `raised` when a page could not be fetched. Whatever the
      server does, no trace with a user or content is lost, now or by a delete still to take
      effect, and the accepted deletions respect the cap. When deletes are prompt, an
      uncapped run that ends leaves exactly the swept store, and one that deletes nothing
      proves that no noise was there. */
  method Clean(server: Langfuse, execute: bool, max: int, limit: nat) returns (r: Summary, raised: bool)
    requires limit > 0 && server.Sound()
    modifies server
    ensures server.Sound()
    ensures Keep(server.All(), Worth()) == old(Keep(server.All(), Worth()))
    ensures forall t :: t in old(server.All()) && (Truthy(t.userId) || Truthy(t.input) || Truthy(t.output)) ==>
              t in server.All()
    ensures raised <==> exists p :: old(server.pages) <= p < server.pages && server.fails(p)
    ensures !execute ==> r.deleted == 0 && server.pending == old(server.pending)
    ensures !execute && old(server.Quiet()) ==> server.traces == old(server.traces)
    ensures !execute && old(server.Quiet()) && max >= 0 && !raised ==>
              r == Tally(Summary(0, 0, 0, 0), server.traces)
    ensures max > 0 ==> r.deleted <= max
    ensures old(server.Prompt()) ==> |server.traces| + r.deleted == old(|server.traces|)
    ensures old(server.Prompt()) && execute && max == 0 && !raised ==>
              server.traces == Swept(old(server.traces), limit)
    ensures old(server.Prompt()) && execute && max >= 0 && !raised ==>
              (r.deleted == 0 <==> old(NoiseCount(server.traces)) == 0)
  {
    hide Keep, UniqueIds, NoiseCount, Swept, Tally, Langfuse.Sound, Langfuse.Prompt, Langfuse.All, PageOf, Ahead;
    r, raised := Summary(0, 0, 0, 0), false;
    ghost var was, all, prompt, still := server.traces, server.All(), server.Prompt(), !execute && server.Quiet();
    var off: nat := 0;
    StartOfRun(was, limit);
    AllThereIs(server);
    while true
      invariant server.Sound() && |server.All()| <= |all| && (prompt ==> server.Prompt())
      invariant Keep(server.All(), Worth()) == Keep(all, Worth())
      invariant old(server.pages) <= server.pages
      invariant forall p :: old(server.pages) <= p < server.pages ==> !server.fails(p)
      invariant !execute ==> r.deleted == 0 && server.pending == old(server.pending)
      invariant still ==> server.traces == was && server.coming == []
      invariant max > 0 ==> r.deleted < max
      invariant prompt ==> |server.traces| + r.deleted == |was|
      invariant prompt && execute && max >= 0 && r.deleted == 0 ==>
                  server.traces == was && NoiseCount(was[..Min(off, |was|)]) == 0
      invariant prompt && execute && max == 0 ==> Ahead(server.traces, off, limit) == Ahead(was, 0, limit)
      invariant still && max >= 0 ==> r == Tally(Summary(0, 0, 0, 0), was[..Min(off, |was|)])
      decreases |all| - off
    {
      var page := Fetch(server, off, limit);
      if page.None? {
        WorthStays(server.All(), all);
        return r, true;
      }
      var batch := page.value;
      AllThereIs(server);
      PageEnds(server.traces, off, limit);
      if batch == [] {
        break;
      }
      ghost var pre, post := PageParts(server.traces, off, limit);
      r := SweepPage(server, batch, execute, max, r, pre, post);
      if max != 0 && r.deleted >= max {
        break;
      }
      PageSwept(pre, batch, post, limit);
      if off < |was| { PageCounted(was, off, limit, Summary(0, 0, 0, 0)); }
      off := off + limit;
    }
    AllThereIs(server);
    WorthStays(server.All(), all);
    if prompt || still { EndOfRun(server.traces, was); }
  }

  lemma WorthStays(s: seq<Trace>, was: seq<Trace>)
    requires Keep(s, Worth()) == Keep(was, Worth())
    ensures forall t :: t in was && (Truthy(t.userId) || Truthy(t.input) || Truthy(t.output)) ==> t in s
  {
    KeepMembers(s, Worth());
    KeepMembers(was, Worth());
    hide Keep;
  }

  lemma AllThereIs(server: Langfuse)
    ensures |server.traces| <= |server.All()| && (server.coming == [] ==> server.All() == server.traces)
  {
  }
}

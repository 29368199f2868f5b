/** scripts/replay_dead_lettered_index.py: plan (SELECT), then a re-guarded UPDATE, racing
    with other replayers, with the index worker's failure writes and with ordinary edits. */
module Replay {
  import opened Lists

  // ------------------------------------------------------------------- scopes

  datatype Scope = Scope(key: Option<string>, collection: Option<string>, all: bool)

  function Count(b: bool): nat { if b then 1 else 0 }

  /** `ReplayScope.__post_init__`: None is the ScopeError. */
  function MakeScope(key: Option<string>, collection: Option<string>, all: bool): (r: Option<Scope>)
    ensures r == Some(Scope(key, None, false)) <==> key.Some? && collection.None? && !all
    ensures r == Some(Scope(None, collection, false)) <==> key.None? && collection.Some? && !all
    ensures r == Some(Scope(None, None, true)) <==> key.None? && collection.None? && all
    ensures r.Some? ==> r.value.key.Some? || r.value.collection.Some? || r.value.all
  {
    if Count(key.Some?) + Count(collection.Some?) + Count(all) != 1 then None else Some(Scope(key, collection, all))
  }

  // --------------------------------------------------------------------- rows

  /** A manifest row: the three dead-letter columns, the soft-delete mark and the rest. */
  datatype Row = Row(key: string, failedAt: Option<int>, attempts: int, code: Option<string>,
                     deletedAt: Option<int>, rest: string)

  type Table = map<string, Row>

  predicate Candidate(row: Row) { row.failedAt.Some? && row.deletedAt.None? }

  function Reset(row: Row): Row { row.(failedAt := None, attempts := 0, code := None) }

  /** What the deployment fixes: the collation of ORDER BY, the collection a key routes to
      and the LIMIT (10 000 in the source). */
  datatype Site = Site(before: (string, string) -> bool, route: string -> string, limit: nat)

  predicate Wanted(row: Row, scope: Scope) { Candidate(row) && (scope.key.Some? ==> row.key == scope.key.value) }

  /** A legal answer to the SELECT: wanted rows only, in key order, and the first LIMIT. */
  ghost predicate Selects(site: Site, rows: Table, scope: Scope, sel: seq<string>) {
    && (forall i, j :: 0 <= i < j < |sel| ==> sel[i] != sel[j])
    && (forall id :: id in sel ==> id in rows && Wanted(rows[id], scope))
    && (forall i, j :: 0 <= i < j < |sel| ==> !site.before(rows[sel[j]].key, rows[sel[i]].key))
    && |sel| <= site.limit
    && (forall id :: id in rows && Wanted(rows[id], scope) && id !in sel ==>
          |sel| == site.limit && forall x :: x in sel ==> !site.before(rows[id].key, rows[x].key))
  }

  function Routed(site: Site, rows: Table, collection: string): string -> bool {
    (id: string) => id in rows && site.route(rows[id].key) == collection
  }

  /** `_matching_rows`: the collection filter comes after the LIMIT. */
  function Planned(site: Site, rows: Table, scope: Scope, sel: seq<string>): seq<string> {
    if scope.collection.Some? then Keep(sel, Routed(site, rows, scope.collection.value)) else sel
  }

  predicate Matches(site: Site, row: Row, scope: Scope) {
    Wanted(row, scope) && (scope.collection.Some? ==> site.route(row.key) == scope.collection.value)
  }

  lemma PlannedMembers(site: Site, rows: Table, scope: Scope, sel: seq<string>)
    requires Selects(site, rows, scope, sel)
    ensures forall id :: id in Planned(site, rows, scope, sel) <==>
            id in sel && id in rows && Matches(site, rows[id], scope)
  {
    if scope.collection.Some? { KeepMembers(sel, Routed(site, rows, scope.collection.value)); }
  }

  /** A row the scope asks for, in terms of its columns. */
  ghost predicate AskedFor(site: Site, row: Row, scope: Scope) {
    && row.failedAt != None && row.deletedAt == None
    && (scope.key.Some? ==> row.key == scope.key.value)
    && (scope.collection.Some? ==> site.route(row.key) == scope.collection.value)
  }

  /** Two rows, the first not behind the second by key. */
  ghost predicate NotAfter(site: Site, rows: Table, x: string, y: string) {
    x in rows && y in rows && x != y && !site.before(rows[y].key, rows[x].key)
  }

  /** Each once, and in key order. */
  ghost predicate InKeyOrder(site: Site, rows: Table, plan: seq<string>) {
    forall i, j :: 0 <= i < j < |plan| ==> NotAfter(site, rows, plan[i], plan[j])
  }

  /** What a plan holds: only rows the scope asks for, each once and in key order; and every
      one of them when the SELECT did not reach its LIMIT. */
  lemma PlanHolds(site: Site, rows: Table, scope: Scope, sel: seq<string>)
    requires Selects(site, rows, scope, sel)
    ensures var plan := Planned(site, rows, scope, sel);
            && (forall id :: id in plan ==> id in rows && AskedFor(site, rows[id], scope))
            && (|sel| < site.limit ==> forall id :: id in rows && AskedFor(site, rows[id], scope) ==> id in plan)
            && InKeyOrder(site, rows, plan)
  {
    PlannedMembers(site, rows, scope, sel);
    assert forall i :: 0 <= i < |sel| ==> sel[i] in sel;
    assert InKeyOrder(site, rows, sel);
    if scope.collection.Some? { KeepInOrder(sel, Routed(site, rows, scope.collection.value), site, rows); }
  }

  lemma {:induction false} KeepInOrder(sel: seq<string>, f: string -> bool, site: Site, rows: Table)
    requires InKeyOrder(site, rows, sel)
    ensures InKeyOrder(site, rows, Keep(sel, f))
  {
    hide NotAfter;
    if sel != [] {
      forall i, j | 0 <= i < j < |sel| - 1 ensures NotAfter(site, rows, sel[1..][i], sel[1..][j]) {
        assert NotAfter(site, rows, sel[i + 1], sel[j + 1]);
      }
      KeepInOrder(sel[1..], f, site, rows);
      KeepMembers(sel[1..], f);
      hide Keep;
      KeepCons(sel, f);
      var rest := Keep(sel[1..], f);
      forall j | 0 <= j < |rest| ensures NotAfter(site, rows, sel[0], rest[j]) {
        assert rest[j] in rest;
        var k :| 0 <= k < |sel| - 1 && sel[1..][k] == rest[j];
        assert NotAfter(site, rows, sel[0], sel[k + 1]);
      }
      var all := Keep(sel, f);
      forall i, j | 0 <= i < j < |all| ensures NotAfter(site, rows, all[i], all[j]) {
        if f(sel[0]) {
          assert all == [sel[0]] + rest && all[j] == rest[j - 1] && (i > 0 ==> all[i] == rest[i - 1]);
        } else {
          assert all == rest;
        }
      }
    }
  }

  /** The wanted rows whose keys sort strictly before the row's, and those that do not sort
      after it. */
  ghost function Ahead(site: Site, rows: Table, scope: Scope, id: string): set<string>
    requires id in rows
  {
    set x | x in rows && Wanted(rows[x], scope) && site.before(rows[x].key, rows[id].key)
  }

  ghost function NotBehind(site: Site, rows: Table, scope: Scope, id: string): set<string>
    requires id in rows
  {
    set x | x in rows && x != id && Wanted(rows[x], scope) && !site.before(rows[id].key, rows[x].key)
  }

  function Elements(xs: seq<string>): set<string> { set x | x in xs }

  lemma {:induction false} ElementCount(xs: seq<string>)
    requires forall i, j :: 0 <= i < j < |xs| ==> xs[i] != xs[j]
    ensures |Elements(xs)| == |xs|
  {
    if xs != [] {
      var n := |xs| - 1;
      ElementCount(xs[..n]);
      assert Elements(xs) == Elements(xs[..n]) + {xs[n]};
    }
  }

  lemma Fits(a: set<string>, b: set<string>)
    requires a <= b
    ensures |a| <= |b|
  {
    assert b == a + (b - a);
  }

  /** How far the LIMIT reaches, whatever the tie-breaking: a selected row has fewer than
      LIMIT wanted rows ahead of it; a row left out has at least LIMIT that do not sort
      after it. */
  lemma LimitReaches(site: Site, rows: Table, scope: Scope, sel: seq<string>, id: string)
    requires Selects(site, rows, scope, sel)
    requires id in rows && Wanted(rows[id], scope) && !site.before(rows[id].key, rows[id].key)
    ensures id in sel ==> |Ahead(site, rows, scope, id)| < site.limit
    ensures id !in sel ==> |NotBehind(site, rows, scope, id)| >= site.limit
  {
    ElementCount(sel);
    if id in sel {
      assert Ahead(site, rows, scope, id) <= Elements(sel) - {id};
      Fits(Ahead(site, rows, scope, id), Elements(sel) - {id});
    } else {
      Fits(Elements(sel), NotBehind(site, rows, scope, id));
    }
  }

  // Rows of different layers may share a key, so the engine may break ties as it likes.

  /** The collation is a strict weak order: ties are transitive. */
  ghost predicate Collates(site: Site) {
    && (forall a, b :: site.before(a, b) ==> !site.before(b, a))
    && (forall a, b, c :: site.before(a, b) ==> site.before(a, c) || site.before(c, b))
  }

  /** An order of the rows by key in which `last` comes last among its ties. */
  predicate Sooner(site: Site, rows: Table, last: string, x: string, y: string)
    requires x in rows && y in rows
  {
    site.before(rows[x].key, rows[y].key) || (!site.before(rows[y].key, rows[x].key) && y == last && x != last)
  }

  lemma SoonerIsTransitive(site: Site, rows: Table, last: string, x: string, y: string, z: string)
    requires Collates(site) && x in rows && y in rows && z in rows
    requires Sooner(site, rows, last, x, y) && Sooner(site, rows, last, y, z)
    ensures Sooner(site, rows, last, x, z)
  {
  }

  lemma {:induction false} Soonest(site: Site, rows: Table, last: string, ids: set<string>) returns (m: string)
    requires Collates(site) && ids != {} && ids <= rows.Keys
    ensures m in ids && forall x :: x in ids ==> !Sooner(site, rows, last, x, m)
  {
    var x :| x in ids;
    if ids == {x} {
      m := x;
    } else {
      assert ids - {x} != {} by { assert ids == (ids - {x}) + {x}; }
      m := Soonest(site, rows, last, ids - {x});
      if Sooner(site, rows, last, x, m) {
        forall y | y in ids ensures !Sooner(site, rows, last, y, x) {
          if y != x && Sooner(site, rows, last, y, x) { SoonerIsTransitive(site, rows, last, y, x, m); }
        }
        m := x;
      }
    }
  }

  ghost predicate Ranked(site: Site, rows: Table, last: string, s: seq<string>) {
    && (forall x :: x in s ==> x in rows)
    && (forall i, j :: 0 <= i < j < |s| ==> s[i] != s[j] && !Sooner(site, rows, last, s[j], s[i]))
  }

  lemma {:induction false} Ranking(site: Site, rows: Table, last: string, ids: set<string>) returns (s: seq<string>)
    requires Collates(site) && ids <= rows.Keys
    ensures Elements(s) == ids && Ranked(site, rows, last, s)
  {
    if ids == {} {
      s := [];
    } else {
      var m := Soonest(site, rows, last, ids);
      var rest := Ranking(site, rows, last, ids - {m});
      s := [m] + rest;
      assert Elements(s) == {m} + Elements(rest);
      RankedCons(site, rows, last, m, rest);
    }
  }

  lemma RankedCons(site: Site, rows: Table, last: string, m: string, rest: seq<string>)
    requires Ranked(site, rows, last, rest) && m in rows && m !in Elements(rest)
    requires forall x :: x in Elements(rest) && x in rows ==> !Sooner(site, rows, last, x, m)
    ensures Ranked(site, rows, last, [m] + rest)
  {
    hide Sooner;
    var s := [m] + rest;
    assert forall j :: 0 <= j < |rest| ==> rest[j] in Elements(rest) && s[j + 1] == rest[j];
  }

  function WantedIds(rows: Table, scope: Scope): set<string> { set x | x in rows && Wanted(rows[x], scope) }

  /** A legal answer that leaves a row out, when LIMIT others do not sort after it. */
  lemma LeavesOut(site: Site, rows: Table, scope: Scope, id: string) returns (sel: seq<string>)
    requires Collates(site) && id in rows && Wanted(rows[id], scope)
    requires |NotBehind(site, rows, scope, id)| >= site.limit
    ensures Selects(site, rows, scope, sel) && id !in sel
  {
    var s := Ranking(site, rows, id, WantedIds(rows, scope));
    assert forall x :: x in s <==> x in WantedIds(rows, scope) by { assert forall x :: x in s <==> x in Elements(s); }
    assert id in s;
    var i: nat :| i < |s| && s[i] == id;
    AllBefore(site, rows, scope, id, s, i);
    sel := s[..site.limit];
    assert forall j :: 0 <= j < |sel| ==> sel[j] == s[j] && s[j] in s;
    assert forall x :: x in s && x !in sel ==> exists j :: site.limit <= j < |s| && s[j] == x;
  }

  lemma AllBefore(site: Site, rows: Table, scope: Scope, id: string, s: seq<string>, i: nat)
    requires id in rows && Ranked(site, rows, id, s) && i < |s| && s[i] == id
    requires forall x :: x in s <==> x in WantedIds(rows, scope)
    ensures |NotBehind(site, rows, scope, id)| <= i
  {
    var before := NotBehind(site, rows, scope, id);
    forall x | x in before ensures x in Elements(s[..i]) {
      assert x in s;
      var j: nat :| j < |s| && s[j] == x;
      assert j < i ==> s[..i][j] == x;
    }
    assert forall a, b :: 0 <= a < b < i ==> s[..i][a] != s[..i][b];
    ElementCount(s[..i]);
    Fits(before, Elements(s[..i]));
  }

  ghost predicate Covers(site: Site, rows: Table, scope: Scope, sel: seq<string>) {
    forall id :: id in rows && Matches(site, rows[id], scope) ==> id in Planned(site, rows, scope, sel)
  }

  /** The plan is sure to hold every matching row, however ties are broken, if and only if
      each of them has fewer than LIMIT dead-lettered rows of any collection that do not
      sort after it; its own collection alone does not decide. */
  lemma PlanCoversIff(site: Site, rows: Table, scope: Scope)
    requires Collates(site)
    ensures (forall sel :: Selects(site, rows, scope, sel) ==> Covers(site, rows, scope, sel))
       <==> (forall id :: id in rows && Matches(site, rows[id], scope) ==>
             |NotBehind(site, rows, scope, id)| < site.limit)
  {
    if forall id :: id in rows && Matches(site, rows[id], scope) ==> |NotBehind(site, rows, scope, id)| < site.limit {
      forall sel | Selects(site, rows, scope, sel) ensures Covers(site, rows, scope, sel) {
        PlannedMembers(site, rows, scope, sel);
        forall id | id in rows && Matches(site, rows[id], scope) ensures id in sel {
          LimitReaches(site, rows, scope, sel, id);
        }
      }
    } else {
      var id :| id in rows && Matches(site, rows[id], scope) && |NotBehind(site, rows, scope, id)| >= site.limit;
      var sel := LeavesOut(site, rows, scope, id);
      PlannedMembers(site, rows, scope, sel);
      assert !Covers(site, rows, scope, sel);
    }
  }

  // The rows that hide another, for every LIMIT.

  function Letters(n: nat): string { if n == 0 then "p" else Letters(n - 1) + "p" }

  /** One dead-lettered row a key. */
  function OneEach(keys: set<string>, at: int): Table {
    map k | k in keys :: Row(k, Some(at), 1, None, None, "")
  }

  /** Key order by length, then "q"; "q" alone routes to decisions, the rest to papers. */
  function ByLength(limit: nat): Site {
    Site((a: string, b: string) => a != "q" && (b == "q" || |a| < |b|),
         (k: string) => if k == "q" then "decisions" else "papers",
         limit)
  }

  function FirstKeys(n: nat): seq<string> { seq(n, i requires 0 <= i < n => Letters(i)) }

  lemma {:induction false} LettersAre(n: nat)
    ensures |Letters(n)| == n + 1 && Letters(n) != "q" && Letters(n)[0] == 'p'
  {
    if n > 0 { LettersAre(n - 1); }
  }

  /** For every LIMIT there is a backlog in which that many rows of one collection keep the
      only row of another out of its own replay. */
  lemma LimitHidesACollection(limit: nat, at: int)
    requires limit > 0
    ensures var rows := OneEach(Elements(FirstKeys(limit)) + {"q"}, at);
            var scope := Scope(None, Some("decisions"), false);
            && Collates(ByLength(limit)) && "q" in rows && Matches(ByLength(limit), rows["q"], scope)
            && Selects(ByLength(limit), rows, scope, FirstKeys(limit))
            && Planned(ByLength(limit), rows, scope, FirstKeys(limit)) == []
  {
    var keys, site := FirstKeys(limit), ByLength(limit);
    var rows, scope := OneEach(Elements(keys) + {"q"}, at), Scope(None, Some("decisions"), false);
    forall i | 0 <= i < limit ensures |keys[i]| == i + 1 && keys[i] != "q" { LettersAre(i); }
    FirstAreSelected(limit, at);
    hide Letters, Selects;
    assert forall x :: x in keys ==> x in rows && rows[x].key == x && x != "q";
    KeepNone(keys, Routed(site, rows, "decisions"));
  }

  lemma FirstAreSelected(limit: nat, at: int)
    requires limit > 0
    ensures var rows := OneEach(Elements(FirstKeys(limit)) + {"q"}, at);
            Selects(ByLength(limit), rows, Scope(None, Some("decisions"), false), FirstKeys(limit))
  {
    var keys := FirstKeys(limit);
    forall i | 0 <= i < limit ensures |keys[i]| == i + 1 && keys[i] != "q" && keys[i] in Elements(keys) {
      LettersAre(i);
    }
    hide Letters;
    assert forall x :: x in keys ==> x in Elements(keys);
  }

  // ------------------------------------------------------------------ the race

  /** Every dead-lettering gets the next event number. An event is open while its row is
      dead-lettered; it ends in a replay's reset or in a worker write that withdraws it. */
  datatype Ledger = Ledger(next: nat, open: map<string, nat>, reset: set<nat>, withdrawn: set<nat>)

  /** `plans`: the ids each replayer holds between its SELECT and its UPDATE; `counts`: the
      reset counts reported so far. */
  datatype State = State(rows: Table, plans: map<nat, seq<string>>, counts: seq<nat>, ledger: Ledger)

  datatype Action =
    | Insert(id: string, row: Row)                                   // a fresh row, not dead-lettered
    | Edit(id: string, key: string, deletedAt: Option<int>, rest: string)  // any other column, soft deletes
    | Worker(id: string, tries: int, at: int, verdict: Option<string>)     // IndexWorker._record_failure
    | Plan(who: nat, scope: Scope, sel: seq<string>)
    | Update(who: nat)

  function Hit(rows: Table, ids: seq<string>): set<string> { set id | id in rows && id in ids && Candidate(rows[id]) }

  function UpdateRows(rows: Table, ids: seq<string>): Table {
    map id | id in rows :: if id in ids && Candidate(rows[id]) then Reset(rows[id]) else rows[id]
  }

  function WorkerRow(row: Row, tries: int, at: int, verdict: Option<string>): Row {
    row.(attempts := tries, failedAt := if verdict.Some? then Some(at) else None, code := verdict)
  }

  function WorkerLedger(l: Ledger, id: string, dead: bool): Ledger {
    if dead && id !in l.open then l.(next := l.next + 1, open := l.open[id := l.next])
    else if !dead && id in l.open then l.(open := l.open - {id}, withdrawn := l.withdrawn + {l.open[id]})
    else l
  }

  function Events(l: Ledger, ids: set<string>): set<nat> { set id | id in ids && id in l.open :: l.open[id] }

  function ResetLedger(l: Ledger, ids: set<string>): Ledger {
    l.(open := l.open - ids, reset := l.reset + Events(l, ids))
  }

  ghost function Next(site: Site, s: State, a: Action): State {
    match a
    case Insert(id, row) => if id in s.rows || row.failedAt.Some? then s else s.(rows := s.rows[id := row])
    case Edit(id, key, deletedAt, rest) =>
      if id !in s.rows then s
      else s.(rows := s.rows[id := s.rows[id].(key := key, deletedAt := deletedAt, rest := rest)])
    case Worker(id, tries, at, verdict) =>
      if id !in s.rows then s
      else s.(rows := s.rows[id := WorkerRow(s.rows[id], tries, at, verdict)],
              ledger := WorkerLedger(s.ledger, id, verdict.Some?))
    case Plan(who, scope, sel) =>
      if Selects(site, s.rows, scope, sel) then s.(plans := s.plans[who := Planned(site, s.rows, scope, sel)]) else s
    case Update(who) =>
      if who !in s.plans then s
      else State(UpdateRows(s.rows, s.plans[who]), s.plans - {who}, s.counts + [|Hit(s.rows, s.plans[who])|],
                 ResetLedger(s.ledger, Hit(s.rows, s.plans[who])))
  }

  ghost function Run(site: Site, s: State, acts: seq<Action>): State {
    if acts == [] then s else Next(site, Run(site, s, acts[..|acts| - 1]), acts[|acts| - 1])
  }

  function Sum(xs: seq<nat>): nat { if xs == [] then 0 else Sum(xs[..|xs| - 1]) + xs[|xs| - 1] }

  ghost predicate Injective(m: map<string, nat>) { forall x, y :: x in m && y in m && m[x] == m[y] ==> x == y }

  ghost predicate Balanced(l: Ledger) {
    && Injective(l.open)
    && l.reset !! l.withdrawn && (forall id :: id in l.open ==> l.open[id] !in l.reset && l.open[id] !in l.withdrawn)
    && (forall e: nat :: e < l.next <==> e in l.reset || e in l.withdrawn || e in l.open.Values)
  }

  ghost predicate Tracks(rows: Table, l: Ledger) {
    forall id :: id in l.open <==> id in rows && rows[id].failedAt.Some?
  }

  ghost predicate Inv(s: State) {
    Balanced(s.ledger) && Tracks(s.rows, s.ledger) && Sum(s.counts) == |s.ledger.reset|
  }

  // ------------------------------------------------------------- one UPDATE

  /** An UPDATE clears the three dead-letter columns of exactly the planned rows that are
      dead-lettered and undeleted at that moment, and changes nothing else; its row count is
      the number of rows it changed. */
  lemma UpdateFrame(rows: Table, ids: seq<string>)
    ensures var rows' := UpdateRows(rows, ids);
            && rows'.Keys == rows.Keys
            && (forall id :: id in rows ==>
                  var row := rows[id];
                  rows'[id] == if id in ids && row.failedAt != None && row.deletedAt == None
                               then Row(row.key, None, 0, None, row.deletedAt, row.rest) else row)
            && |Hit(rows, ids)| == |set id | id in rows && rows'[id] != rows[id]|
  {
    var rows' := UpdateRows(rows, ids);
    assert Hit(rows, ids) == set id | id in rows && rows'[id] != rows[id];
  }

  // ------------------------------------------------------------ conservation

  lemma {:induction false} EventCount(l: Ledger, ids: set<string>)
    requires Injective(l.open) && ids <= l.open.Keys
    ensures |Events(l, ids)| == |ids|
  {
    if ids != {} {
      var x :| x in ids;
      EventCount(l, ids - {x});
      assert Events(l, ids) == Events(l, ids - {x}) + {l.open[x]};
    }
  }

  lemma ResetBalances(l: Ledger, ids: set<string>)
    requires Balanced(l) && ids <= l.open.Keys
    ensures Balanced(ResetLedger(l, ids))
    ensures |ResetLedger(l, ids).reset| == |l.reset| + |ids|
  {
    var l' := ResetLedger(l, ids);
    EventCount(l, ids);
    assert l.reset !! Events(l, ids);
    forall e: nat ensures e < l'.next <==> e in l'.reset || e in l'.withdrawn || e in l'.open.Values {
      if e in l.open.Values {
        var id :| id in l.open && l.open[id] == e;
        if id !in ids { assert l'.open[id] == e; }
      }
    }
  }

  lemma WorkerBalances(l: Ledger, id: string, dead: bool)
    requires Balanced(l)
    ensures Balanced(WorkerLedger(l, id, dead)) && WorkerLedger(l, id, dead).reset == l.reset
  {
    var l' := WorkerLedger(l, id, dead);
    if l' != l {
      forall e: nat ensures e < l'.next <==> e in l'.reset || e in l'.withdrawn || e in l'.open.Values {
        if e in l.open.Values {
          var x :| x in l.open && l.open[x] == e;
          if x != id { assert l'.open[x] == e; }
        }
        if dead && e == l.next { assert l'.open[id] == e; }
      }
    }
  }

  lemma StepKeeps(site: Site, s: State, a: Action)
    requires Inv(s)
    ensures Inv(Next(site, s, a))
  {
    hide Balanced, Selects, Planned, Hit, UpdateRows, WorkerLedger, ResetLedger, Sum;
    match a
    case Worker(id, tries, at, verdict) =>
      WorkerBalances(s.ledger, id, verdict.Some?);
      if id in s.rows { WorkerTracks(s.rows, s.ledger, id, tries, at, verdict); }
    case Update(who) => if who in s.plans { UpdateKeeps(site, s, who); }
    case _ =>
  }

  lemma UpdateKeeps(site: Site, s: State, who: nat)
    requires Inv(s) && who in s.plans
    ensures Inv(Next(site, s, Update(who)))
  {
    hide Balanced, Tracks, Hit, UpdateRows, ResetLedger;
    var hit := Hit(s.rows, s.plans[who]);
    UpdateTracks(s.rows, s.ledger, s.plans[who]);
    ResetBalances(s.ledger, hit);
    var c := s.counts + [|hit|];
    assert c[..|c| - 1] == s.counts;
  }

  lemma UpdateTracks(rows: Table, l: Ledger, ids: seq<string>)
    requires Tracks(rows, l)
    ensures Hit(rows, ids) <= l.open.Keys && Tracks(UpdateRows(rows, ids), ResetLedger(l, Hit(rows, ids)))
  {
  }

  lemma WorkerTracks(rows: Table, l: Ledger, id: string, tries: int, at: int, verdict: Option<string>)
    requires Tracks(rows, l) && id in rows
    ensures Tracks(rows[id := WorkerRow(rows[id], tries, at, verdict)], WorkerLedger(l, id, verdict.Some?))
  {
  }

  /** Under every interleaving: an event is open, withdrawn or reset, never two of them, and
      the reset counts reported by all replayers sum to the events they cleared. */
  lemma {:induction false} RunKeeps(site: Site, s: State, acts: seq<Action>)
    requires Inv(s)
    ensures Inv(Run(site, s, acts))
    ensures var s' := Run(site, s, acts);
            Sum(s'.counts) + |s'.ledger.withdrawn| + |s'.ledger.open| == s'.ledger.next
  {
    if acts != [] {
      RunKeeps(site, s, acts[..|acts| - 1]);
      StepKeeps(site, Run(site, s, acts[..|acts| - 1]), acts[|acts| - 1]);
    }
    LedgerAddsUp(Run(site, s, acts).ledger);
  }

  lemma LedgerAddsUp(l: Ledger)
    requires Balanced(l)
    ensures |l.reset| + |l.withdrawn| + |l.open| == l.next
  {
    EventCount(l, l.open.Keys);
    var all := Events(l, l.open.Keys);
    assert all == l.open.Values;
    assert l.reset !! all && l.withdrawn !! all;
    assert UpTo(l.next) == l.reset + l.withdrawn + all;
  }

  ghost function UpTo(n: nat): (r: set<nat>)
    ensures |r| == n && forall e: nat :: e in r <==> e < n
  {
    if n == 0 then {} else UpTo(n - 1) + {n - 1}
  }

  /** Any table can be the start of a run: its dead-lettered rows are the first events. */
  lemma {:induction false} AnyTableStarts(rows: Table) returns (l: Ledger)
    ensures Inv(State(rows, map[], [], l)) && l.reset == {} && l.withdrawn == {}
    decreases |rows|
  {
    if rows == map[] {
      l := Ledger(0, map[], {}, {});
    } else {
      var id :| id in rows;
      assert |rows - {id}| < |rows| by {
        assert (rows - {id}).Keys + {id} == rows.Keys;
        assert |(rows - {id}).Keys + {id}| == |(rows - {id}).Keys| + 1;
      }
      var l0 := AnyTableStarts(rows - {id});
      WorkerBalances(l0, id, rows[id].failedAt.Some?);
      l := WorkerLedger(l0, id, rows[id].failedAt.Some?);
    }
  }

  // ------------------------------------------------ what a stale plan may clear

  /** The step dead-letters the row. */
  ghost predicate Opens(site: Site, s: State, a: Action, id: string) {
    id !in s.ledger.open && id in Next(site, s, a).ledger.open
  }

  ghost predicate DeadLetteredDuring(site: Site, s: State, acts: seq<Action>, id: string) {
    exists k :: 0 <= k < |acts| && Opens(site, Run(site, s, acts[..k]), acts[k], id)
  }

  lemma DuringSnoc(site: Site, s: State, acts: seq<Action>, a: Action, id: string)
    ensures DeadLetteredDuring(site, s, acts + [a], id)
       <==> DeadLetteredDuring(site, s, acts, id) || Opens(site, Run(site, s, acts), a, id)
  {
    hide Next, Run, Opens;
    var all := acts + [a];
    assert all[..|acts|] == acts && all[|acts|] == a;
    assert forall k :: 0 <= k < |acts| ==> all[..k] == acts[..k] && all[k] == acts[k];
    if DeadLetteredDuring(site, s, acts, id) {
      var k :| 0 <= k < |acts| && Opens(site, Run(site, s, acts[..k]), acts[k], id);
      assert Opens(site, Run(site, s, all[..k]), all[k], id);
    }
    if Opens(site, Run(site, s, acts), a, id) { assert Opens(site, Run(site, s, all[..|acts|]), all[|acts|], id); }
  }

  lemma StepEvents(site: Site, s: State, a: Action, id: string)
    requires Inv(s) && id in Next(site, s, a).ledger.open
    ensures s.ledger.next <= Next(site, s, a).ledger.next
    ensures if id in s.ledger.open then Next(site, s, a).ledger.open[id] == s.ledger.open[id]
            else Next(site, s, a).ledger.open[id] == s.ledger.next
  {
  }

  lemma StepNext(site: Site, s: State, a: Action)
    ensures s.ledger.next <= Next(site, s, a).ledger.next
  {
  }

  /** A row that is dead-lettered at the end of a run carries an event it did not carry at
      the start exactly when it was dead-lettered during the run. */
  lemma {:induction false} EventIsOld(site: Site, s: State, acts: seq<Action>, id: string)
    requires Inv(s) && id in Run(site, s, acts).ledger.open
    ensures s.ledger.next <= Run(site, s, acts).ledger.next
    ensures DeadLetteredDuring(site, s, acts, id) ==> Run(site, s, acts).ledger.open[id] >= s.ledger.next
    ensures !DeadLetteredDuring(site, s, acts, id) ==>
              id in s.ledger.open && Run(site, s, acts).ledger.open[id] == s.ledger.open[id]
  {
    if acts == [] {
      hide Next;
    } else {
      hide Next, Inv, DeadLetteredDuring;
      var front, a := acts[..|acts| - 1], acts[|acts| - 1];
      var mid := Run(site, s, front);
      RunKeeps(site, s, front);
      NextGrows(site, s, front);
      StepEvents(site, mid, a, id);
      DuringSnoc(site, s, front, a, id);
      assert acts == front + [a];
      if id in mid.ledger.open { EventIsOld(site, s, front, id); }
    }
  }

  lemma {:induction false} NextGrows(site: Site, s: State, acts: seq<Action>)
    ensures s.ledger.next <= Run(site, s, acts).ledger.next
  {
    if acts != [] {
      NextGrows(site, s, acts[..|acts| - 1]);
      StepNext(site, Run(site, s, acts[..|acts| - 1]), acts[|acts| - 1]);
    }
  }

  /** A row the UPDATE resets loses the very event the plan saw if and only if it was not
      dead-lettered anew between the two; the guard alone does not tell. */
  lemma ResetIsOfThePlan(site: Site, s: State, scope: Scope, sel: seq<string>, acts: seq<Action>, id: string)
    requires Inv(s) && Selects(site, s.rows, scope, sel)
    requires id in Hit(Run(site, s, acts).rows, Planned(site, s.rows, scope, sel))
    ensures id in s.ledger.open && id in Run(site, s, acts).ledger.open
    ensures Run(site, s, acts).ledger.open[id] == s.ledger.open[id] <==> !DeadLetteredDuring(site, s, acts, id)
  {
    PlannedMembers(site, s.rows, scope, sel);
    RunKeeps(site, s, acts);
    EventIsOld(site, s, acts, id);
  }

  /** Two UPDATEs reset the same row only if it was dead-lettered again in between. */
  lemma ResetAgainIsANewEvent(site: Site, s: State, acts: seq<Action>, p: nat, q: nat, id: string)
    requires Inv(s) && p in s.plans && id in Hit(s.rows, s.plans[p])
    requires var s' := Run(site, Next(site, s, Update(p)), acts);
             q in s'.plans && id in Hit(s'.rows, s'.plans[q])
    ensures DeadLetteredDuring(site, Next(site, s, Update(p)), acts, id)
  {
    var s1 := Next(site, s, Update(p));
    StepKeeps(site, s, Update(p));
    assert id !in s1.ledger.open;
    RunKeeps(site, s1, acts);
    EventIsOld(site, s1, acts, id);
  }

  /** The race the tool's own description rules out: the second replayer resets the row, the
      worker dead-letters it again, and the first replayer's UPDATE clears that new event. */
  lemma StalePlanResets(site: Site, row: Row)
    requires site.limit > 0 && Candidate(row) && !site.before(row.key, row.key)
    ensures var start := State(map["r" := row], map[], [], Ledger(1, map["r" := 0], {}, {}));
            var plan := Scope(None, None, true);
            var end := Run(site, start, [Plan(0, plan, ["r"]), Plan(1, plan, ["r"]), Update(1),
                                         Worker("r", 1, 7, Some("corrupt")), Update(0)]);
            && Inv(start) && end.ledger.reset == {0, 1} && end.counts == [1, 1] && end.rows == map["r" := Reset(row)]
  {
    var plan := Scope(None, None, true);
    var start := State(map["r" := row], map[], [], Ledger(1, map["r" := 0], {}, {}));
    var acts := [Plan(0, plan, ["r"]), Plan(1, plan, ["r"]), Update(1), Worker("r", 1, 7, Some("corrupt")), Update(0)];
    hide *;
    FiveSteps(site, start, acts);
    var dead := WorkerRow(Reset(row), 1, 7, Some("corrupt"));
    StartIsTracked(row);
    BothPlan(site, start, row);
    var planned := start.(plans := map[0 := ["r"], 1 := ["r"]]);
    var once := State(map["r" := Reset(row)], map[0 := ["r"]], [1], Ledger(1, map[], {0}, {}));
    FirstResets(site, planned, row);
    DiesAgain(site, once, row);
    var again := State(map["r" := dead], map[0 := ["r"]], [1], Ledger(2, map["r" := 1], {0}, {}));
    ResetsTheRow(site, again, 0, dead, 1);
  }

  lemma PlansTheRow(site: Site, s: State, who: nat, row: Row)
    requires site.limit > 0 && Candidate(row) && !site.before(row.key, row.key) && s.rows == map["r" := row]
    ensures Next(site, s, Plan(who, Scope(None, None, true), ["r"])) == s.(plans := s.plans[who := ["r"]])
  {
  }

  lemma BothPlan(site: Site, start: State, row: Row)
    requires site.limit > 0 && Candidate(row) && !site.before(row.key, row.key)
    requires start.rows == map["r" := row] && start.plans == map[]
    ensures var plan := Scope(None, None, true);
            Next(site, Next(site, start, Plan(0, plan, ["r"])), Plan(1, plan, ["r"])) ==
            start.(plans := map[0 := ["r"], 1 := ["r"]])
  {
    hide *;
    PlansTheRow(site, start, 0, row);
    PlansTheRow(site, start.(plans := map[0 := ["r"]]), 1, row);
    assert start.plans[0 := ["r"]] == map[0 := ["r"]];
  }

  lemma FirstResets(site: Site, planned: State, row: Row)
    requires Candidate(row) && planned == State(map["r" := row], map[0 := ["r"], 1 := ["r"]], [],
                                                Ledger(1, map["r" := 0], {}, {}))
    ensures Next(site, planned, Update(1)) ==
            State(map["r" := Reset(row)], map[0 := ["r"]], [1], Ledger(1, map[], {0}, {}))
  {
    hide *;
    ResetsTheRow(site, planned, 1, row, 0);
    assert planned.plans - {1} == map[0 := ["r"]] && {} + {0} == {0} && [] + [1] == [1];
  }

  lemma DiesAgain(site: Site, s: State, row: Row)
    requires Candidate(row) && s.rows == map["r" := Reset(row)] && s.ledger == Ledger(1, map[], {0}, {})
    ensures var dead := WorkerRow(Reset(row), 1, 7, Some("corrupt"));
            && Next(site, s, Worker("r", 1, 7, Some("corrupt"))) ==
               s.(rows := map["r" := dead], ledger := Ledger(2, map["r" := 1], {0}, {}))
            && Candidate(dead) && Reset(dead) == Reset(row)
  {
  }

  lemma StartIsTracked(row: Row)
    requires Candidate(row)
    ensures Inv(State(map["r" := row], map[], [], Ledger(1, map["r" := 0], {}, {})))
  {
    var l := Ledger(1, map["r" := 0], {}, {});
    assert l.open["r"] == 0 && l.open.Values == {0};
  }

  lemma ResetsTheRow(site: Site, s: State, who: nat, row: Row, event: nat)
    requires Candidate(row) && s.rows == map["r" := row] && s.ledger.open == map["r" := event]
    requires who in s.plans && s.plans[who] == ["r"]
    ensures Next(site, s, Update(who)) ==
            State(map["r" := Reset(row)], s.plans - {who}, s.counts + [1],
                  s.ledger.(open := map[], reset := s.ledger.reset + {event}))
  {
    assert Hit(s.rows, ["r"]) == {"r"};
    assert Events(s.ledger, {"r"}) == {event};
    assert s.ledger.open - {"r"} == map[];
  }

  lemma FiveSteps(site: Site, s: State, acts: seq<Action>)
    requires |acts| == 5
    ensures Run(site, s, acts) ==
            Next(site, Next(site, Next(site, Next(site, Next(site, s, acts[0]), acts[1]), acts[2]), acts[3]), acts[4])
  {
    hide Next;
    assert acts[..4][..3] == acts[..3] && acts[..3][..2] == acts[..2] && acts[..2][..1] == acts[..1] &&
           acts[..1][..0] == [];
    assert Run(site, s, acts[..1]) == Next(site, s, acts[0]);
    assert Run(site, s, acts[..2]) == Next(site, Run(site, s, acts[..1]), acts[1]);
    assert Run(site, s, acts[..3]) == Next(site, Run(site, s, acts[..2]), acts[2]);
    assert Run(site, s, acts[..4]) == Next(site, Run(site, s, acts[..3]), acts[3]);
  }
}

/** scripts/curator/runner.py: near-duplicate merging (C5). The pure specification and
    what it guarantees; CuratorPipeline holds the in-place version. */
module Dedup {
  import opened Lists

  // ------------------------------------------------------------ Python strings

  /** Code-point order, as Python compares `str`. */
  predicate Less(a: string, b: string) {
    b != [] && (a == [] || a[0] < b[0] || (a[0] == b[0] && Less(a[1..], b[1..])))
  }

  lemma {:induction false} LessTransitive(a: string, b: string, c: string)
    ensures Less(a, b) && Less(b, c) ==> Less(a, c)
    ensures Less(a, b) && !Less(c, b) ==> Less(a, c)
    ensures !Less(b, a) && !Less(c, b) ==> !Less(c, a)
  {
    if a != [] && b != [] && c != [] && a[0] == b[0] == c[0] {
      LessTransitive(a[1..], b[1..], c[1..]);
    }
  }

  lemma {:induction false} LessTotal(a: string, b: string)
    ensures Less(a, b) || Less(b, a) || a == b
    ensures !(Less(a, b) && Less(b, a)) && !Less(a, a)
  {
    if a != [] && b != [] && a[0] == b[0] {
      LessTotal(a[1..], b[1..]);
      assert a == [a[0]] + a[1..] && b == [b[0]] + b[1..];
    }
    if a != [] { LessTotal(a[1..], a[1..]); }
  }

  /** The order, position by position: the texts agree up to some place, where the first one
      ends before the other or has the smaller character. */
  lemma {:induction false} LessIff(a: string, b: string)
    ensures Less(a, b) <==> exists i: nat :: DiffersAt(a, b, i)
  {
    if b == [] {
    } else if a == [] || a[0] < b[0] {
      assert DiffersAt(a, b, 0);
    } else if a[0] == b[0] {
      LessIff(a[1..], b[1..]);
      if i: nat :| DiffersAt(a[1..], b[1..], i) {
        assert a[..i + 1] == [a[0]] + a[1..][..i] && b[..i + 1] == [b[0]] + b[1..][..i];
        assert DiffersAt(a, b, i + 1);
      }
      if i: nat :| DiffersAt(a, b, i) {
        assert i > 0;
        assert a[1..][..i - 1] == a[..i][1..] && b[1..][..i - 1] == b[..i][1..];
        assert DiffersAt(a[1..], b[1..], i - 1);
      }
    } else {
      forall i: nat ensures !DiffersAt(a, b, i) {
        if 0 < i && i <= |a| && i <= |b| { SameHead(a, b, i); }
      }
    }
  }

  lemma SameHead(a: string, b: string, i: nat)
    requires 0 < i <= |a| && i <= |b|
    ensures a[..i] == b[..i] ==> a[0] == b[0]
  {
    assert a[..i][0] == a[0] && b[..i][0] == b[0];
  }

  ghost predicate DiffersAt(a: string, b: string, i: nat) {
    i <= |a| && i < |b| && a[..i] == b[..i] && (i == |a| || a[i] < b[i])
  }

  predicate Sorted(xs: seq<string>) {
    forall i, j :: 0 <= i < j < |xs| ==> Less(xs[i], xs[j])
  }

  function Insert(x: string, xs: seq<string>): (r: seq<string>)
    requires Sorted(xs)
    ensures Sorted(r) && forall y :: y in r <==> y == x || y in xs
  {
    if xs == [] then [x]
    else if x == xs[0] then xs
    else if Less(x, xs[0]) then
      assert forall j :: 1 <= j < |xs| ==> Less(xs[0], xs[j]);
      assert forall j :: 0 <= j < |xs| ==> Less(x, xs[j]) by {
        forall j | 0 <= j < |xs| ensures Less(x, xs[j]) { LessTransitive(x, xs[0], xs[j]); }
      }
      [x] + xs
    else
      LessTotal(x, xs[0]);
      var rest := Insert(x, xs[1..]);
      assert forall i :: 0 <= i < |rest| ==> Less(xs[0], rest[i]) by {
        forall i | 0 <= i < |rest| ensures Less(xs[0], rest[i]) {
          assert rest[i] in rest;
          if rest[i] != x { var j :| 0 <= j < |xs| - 1 && xs[1..][j] == rest[i]; }
        }
      }
      [xs[0]] + rest
  }

  /** `sorted(set(xs))`. */
  function SortedSet(xs: seq<string>): (r: seq<string>)
    ensures Sorted(r) && forall y :: y in r <==> y in xs
  {
    if xs == [] then [] else Insert(xs[0], SortedSet(xs[1..]))
  }

  // ------------------------------------------------------------ the taxonomy

  const PUBLIC_SAFE := "public-safe"
  const SENSITIVE := ["pii", "pricing", "counterparty-nonpublic", "internal-id", "security-fingerprint"]

  /** The sensitive flags selected by `p` in canonical order, or the default tag. */
  function Canonical(p: string -> bool): (r: seq<string>)
    ensures r != []
    ensures forall f :: f in SENSITIVE ==> (f in r <==> p(f))
    ensures r == [PUBLIC_SAFE] <==> forall f :: f in SENSITIVE ==> !p(f)
  {
    KeepMembers(SENSITIVE, p);
    var kept := Keep(SENSITIVE, p);
    assert PUBLIC_SAFE !in SENSITIVE;
    if kept == [] then
      assert forall f :: f in SENSITIVE ==> f !in kept && !p(f);
      [PUBLIC_SAFE]
    else
      assert kept[0] in kept;
      kept
  }

  /** Which tags a selection leads to: each of the five sensitive ones that it selects, and
      the default one exactly when it selects none. */
  lemma CanonicalIff(p: string -> bool, tag: string)
    ensures var five := {"pii", "pricing", "counterparty-nonpublic", "internal-id", "security-fingerprint"};
            tag in Canonical(p) <==>
            (tag in five && p(tag)) || (tag == "public-safe" && forall f :: f in five ==> !p(f))
  {
    var five := {"pii", "pricing", "counterparty-nonpublic", "internal-id", "security-fingerprint"};
    FiveAre();
    KeepMembers(SENSITIVE, p);
    hide Keep;
    assert forall f :: f in SENSITIVE <==> f in five;
  }

  lemma FiveAre()
    ensures forall f :: f in SENSITIVE <==>
              f in {"pii", "pricing", "counterparty-nonpublic", "internal-id", "security-fingerprint"}
    ensures "public-safe" !in SENSITIVE
  {
  }

  /** Flags stand in the taxonomy's order, each once. */
  lemma CanonicalOrder(p: string -> bool, i: nat, j: nat)
    requires i < j < |Canonical(p)|
    ensures var r := Canonical(p);
            exists k, n :: 0 <= k < n < |SENSITIVE| && SENSITIVE[k] == r[i] && SENSITIVE[n] == r[j]
  {
    KeepIndices(SENSITIVE, p, i, j);
  }

  lemma {:induction false} KeepIndices(xs: seq<string>, p: string -> bool, i: nat, j: nat)
    requires i < j < |Keep(xs, p)|
    ensures exists k, n :: 0 <= k < n < |xs| && xs[k] == Keep(xs, p)[i] && xs[n] == Keep(xs, p)[j]
  {
    var rest := Keep(xs[1..], p);
    if p(xs[0]) && i == 0 {
      KeepMembers(xs[1..], p);
      assert rest[j - 1] in rest;
      var n :| 0 <= n < |xs| - 1 && xs[1..][n] == rest[j - 1];
      assert xs[0] == Keep(xs, p)[0] && xs[n + 1] == Keep(xs, p)[j];
    } else {
      var d := if p(xs[0]) then 1 else 0;
      KeepIndices(xs[1..], p, i - d, j - d);
      var k, n :| 0 <= k < n < |xs| - 1 && xs[1..][k] == rest[i - d] && xs[1..][n] == rest[j - d];
      assert xs[k + 1] == Keep(xs, p)[i] && xs[n + 1] == Keep(xs, p)[j];
    }
  }

  function MergeTags(a: seq<string>, b: seq<string>): seq<string> { Canonical(f => f in a || f in b) }

  // ------------------------------------------------------------------ records

  datatype Record = Record(collection: string, id: string, marker: string, text: string, tier: string,
                           createdAt: string, links: seq<string>, tags: seq<string>, superseded: seq<string>)

  datatype Merge = Merge(kept: string, superseded: string, similarity: real, tier: string)

  /** The token signature of a text and the similarity at which records collide. */
  datatype Policy = Policy(signature: string -> set<string>, threshold: real)

  function Jaccard(a: set<string>, b: set<string>): real {
    if a == {} && b == {} then 1.0
    else if a == {} || b == {} then 0.0
    else |a * b| as real / |a + b| as real
  }

  /** A symmetric similarity in [0, 1], and 1 exactly for equal signatures. */
  lemma JaccardFacts(a: set<string>, b: set<string>)
    ensures 0.0 <= Jaccard(a, b) <= 1.0
    ensures Jaccard(a, b) == 1.0 <==> a == b
    ensures Jaccard(a, b) == Jaccard(b, a)
  {
    assert a * b == b * a && a + b == b + a;
    if a != {} && b != {} {
      JaccardBounds(a, b);
      Ratio(|a * b|, |a + b|);
    }
  }

  lemma Ratio(m: nat, n: nat)
    requires m <= n && n > 0
    ensures 0.0 <= m as real / n as real <= 1.0
    ensures m as real / n as real == 1.0 <==> m == n
  {
  }

  lemma JaccardBounds(a: set<string>, b: set<string>)
    requires a != {} && b != {}
    ensures |a * b| <= |a + b| && |a + b| > 0 && (|a * b| == |a + b| <==> a == b)
  {
    SubsetSize(a * b, a + b);
    if a == b { assert a * b == a == a + b; }
    if |a * b| == |a + b| {
      assert a * b == a + b by { SameSize(a * b, a + b); }
    }
  }

  lemma {:induction false} SubsetSize(a: set<string>, b: set<string>)
    requires a <= b
    ensures |a| <= |b|
  {
    assert b == a + (b - a);
  }

  lemma SameSize(a: set<string>, b: set<string>)
    requires a <= b && |a| == |b|
    ensures a == b
  {
    assert b == a + (b - a);
  }

  function MergeLinks(primary: seq<string>, other: seq<string>): (r: seq<string>)
    ensures forall x :: x in r <==> x in primary || x in other
    ensures |r| >= |primary| && r[..|primary|] == primary
    decreases |other|
  {
    if other == [] then primary
    else MergeLinks(if other[0] in primary then primary else primary + [other[0]], other[1..])
  }

  /** The links the other record adds stand behind the primary's, each once, in its order. */
  lemma {:induction false} MergedOrder(primary: seq<string>, other: seq<string>, i: nat, j: nat)
    requires |primary| <= i < j < |MergeLinks(primary, other)|
    ensures var r := MergeLinks(primary, other);
            r[i] !in primary && r[i] != r[j] &&
            exists k, n :: 0 <= k < n < |other| && other[k] == r[i] && other[n] == r[j] && other[n] !in other[..n]
    decreases |other|
  {
    hide MergeLinks;
    MergeOne(primary, other);
    var r := MergeLinks(primary, other);
    var more := if other[0] in primary then primary else primary + [other[0]];
    if i == |primary| && other[0] !in primary {
      LateLink(more, other[1..], j);
      var n :| 0 <= n < |other| - 1 && other[1..][n] == r[j] && other[1..][n] !in other[1..][..n];
      assert r[i] == other[0] && r[j] !in more && other[0] in more;
      assert other[n + 1] == r[j] && other[..n + 1] == [other[0]] + other[1..][..n];
    } else {
      MergedOrder(more, other[1..], i, j);
      var k, n :| 0 <= k < n < |other| - 1 && other[1..][k] == r[i] && other[1..][n] == r[j] &&
          other[1..][n] !in other[1..][..n];
      LateLink(more, other[1..], j);
      assert other[k + 1] == r[i] && other[n + 1] == r[j] && other[..n + 1] == [other[0]] + other[1..][..n];
    }
  }

  lemma MergeOne(primary: seq<string>, other: seq<string>)
    requires |MergeLinks(primary, other)| > |primary|
    ensures other != []
    ensures MergeLinks(primary, other) ==
            MergeLinks(if other[0] in primary then primary else primary + [other[0]], other[1..])
  {
  }

  /** A link the other record adds, at its first place there. */
  lemma {:induction false} LateLink(primary: seq<string>, other: seq<string>, j: nat)
    requires |primary| <= j < |MergeLinks(primary, other)|
    ensures var r := MergeLinks(primary, other);
            r[j] !in primary && exists n :: 0 <= n < |other| && other[n] == r[j] && other[n] !in other[..n]
    decreases |other|
  {
    hide MergeLinks;
    MergeOne(primary, other);
    var r := MergeLinks(primary, other);
    var more := if other[0] in primary then primary else primary + [other[0]];
    if j == |primary| && other[0] !in primary {
      assert r[j] == more[j] == other[0] && other[0] !in other[..0];
    } else {
      LateLink(more, other[1..], j);
      var n :| 0 <= n < |other| - 1 && other[1..][n] == r[j] && other[1..][n] !in other[1..][..n];
      assert other[n + 1] == r[j] && other[..n + 1] == [other[0]] + other[1..][..n];
      assert other[0] in more;
    }
  }

  /** The similarity of the collision between two records, or -1.0 when they do not. */
  function Collision(policy: Policy, survivor: Record, record: Record): real {
    if survivor.id == record.id then 1.0
    else
      var score := Jaccard(policy.signature(record.text), policy.signature(survivor.text));
      if score >= policy.threshold then score else -1.0
  }

  predicate Collides(policy: Policy, survivor: Record, record: Record) {
    survivor.id == record.id ||
    Jaccard(policy.signature(record.text), policy.signature(survivor.text)) >= policy.threshold
  }

  /** The first survivor the record collides with, or the number of survivors. */
  function FirstMatch(policy: Policy, survivors: seq<Record>, record: Record): (k: nat)
    ensures k <= |survivors|
    ensures k < |survivors| ==> Collides(policy, survivors[k], record)
    ensures forall i :: 0 <= i < k ==> !Collides(policy, survivors[i], record)
  {
    if survivors == [] || Collides(policy, survivors[0], record) then 0
    else 1 + FirstMatch(policy, survivors[1..], record)
  }

  /** `sorted((survivor, record), key=created_at)` is stable: a tie makes the record newer. */
  predicate RecordIsNewer(survivor: Record, record: Record) { !Less(record.createdAt, survivor.createdAt) }

  /** The newer record after it absorbed the older one. */
  function Absorb(newer: Record, older: Record): Record {
    newer.(superseded := SortedSet(newer.superseded + older.superseded + [older.id]),
           links := MergeLinks(newer.links, older.links),
           tags := MergeTags(newer.tags, older.tags))
  }

  function Merged(survivor: Record, record: Record): Record {
    if RecordIsNewer(survivor, record) then Absorb(record, survivor) else Absorb(survivor, record)
  }

  datatype State = State(survivors: seq<Record>, merges: seq<Merge>)

  function Step(policy: Policy, st: State, record: Record): State {
    var k := FirstMatch(policy, st.survivors, record);
    if k == |st.survivors| then st.(survivors := st.survivors + [record])
    else
      var prior := st.survivors[k];
      var kept := Merged(prior, record);
      var gone := if RecordIsNewer(prior, record) then prior else record;
      State(st.survivors[k := kept],
            st.merges + [Merge(kept.id, gone.id, Collision(policy, prior, record), kept.tier)])
  }

  function DedupRecords(policy: Policy, rs: seq<Record>): State {
    if rs == [] then State([], [])
    else Step(policy, DedupRecords(policy, rs[..|rs| - 1]), rs[|rs| - 1])
  }

  // --------------------------------------------------------- what it guarantees

  /** Which survivor each input ended up in: a partition of the inputs into classes. */
  function Home(policy: Policy, rs: seq<Record>): (home: seq<nat>)
    ensures |home| == |rs|
  {
    if rs == [] then []
    else
      var before := rs[..|rs| - 1];
      Home(policy, before) + [FirstMatch(policy, DedupRecords(policy, before).survivors, rs[|rs| - 1])]
  }

  /** Input `j` belongs to class `k`. */
  predicate In(home: seq<nat>, k: nat, j: int) { 0 <= j < |home| && home[j] == k }

  /** `w` is the last input of maximal `created_at` in class `k`. */
  ghost predicate Newest(rs: seq<Record>, home: seq<nat>, k: nat, w: int) {
    && |home| == |rs| && In(home, k, w)
    && forall j :: In(home, k, j) ==>
         !Less(rs[w].createdAt, rs[j].createdAt) && (w < j ==> Less(rs[j].createdAt, rs[w].createdAt))
  }

  /** `s` is exactly what class `k` must leave behind when its newest input is `w`: that
      input's own identity, every other input's id and everything superseded before, all
      links, and a sensitive flag exactly when some input of the class carried it. */
  ghost predicate Represents(rs: seq<Record>, home: seq<nat>, k: nat, w: int, s: Record) {
    && Newest(rs, home, k, w)
    && s == rs[w].(superseded := s.superseded, links := s.links, tags := s.tags)
    && (forall x :: x in s.superseded <==>
          exists j :: In(home, k, j) && ((j != w && x == rs[j].id) || x in rs[j].superseded))
    && (forall x :: x in s.links <==> exists j :: In(home, k, j) && x in rs[j].links)
    && (forall f :: f in SENSITIVE ==> (f in s.tags <==> exists j :: In(home, k, j) && f in rs[j].tags))
    && ((forall j :: In(home, k, j) ==> j == w) ==> s == rs[w])
    && ((exists j :: In(home, k, j) && j != w) ==> s.tags == Canonical(f => f in s.tags))
  }

  /** A class of one. */
  lemma FreshClass(rs: seq<Record>, home: seq<nat>, record: Record, k: nat)
    requires |home| == |rs| && forall j :: 0 <= j < |home| ==> home[j] != k
    ensures Represents(rs + [record], home + [k], k, |rs|, record)
  {
    hide Canonical, Less;
    LessTotal(record.createdAt, record.createdAt);
  }

  /** Classes the new input does not join are unaffected. */
  lemma OtherClass(rs: seq<Record>, home: seq<nat>, record: Record, k: nat, i: nat, w: int, s: Record)
    requires Represents(rs, home, i, w, s) && i != k
    ensures Represents(rs + [record], home + [k], i, w, s)
  {
    var rs', home' := rs + [record], home + [k];
    assert forall j :: In(home', i, j) <==> In(home, i, j);
    assert forall j :: In(home, i, j) ==> rs'[j] == rs[j];
  }

  lemma JoinNewest(rs: seq<Record>, home: seq<nat>, record: Record, k: nat, w: int, s: Record)
    requires Newest(rs, home, k, w) && s.createdAt == rs[w].createdAt
    ensures Newest(rs + [record], home + [k], k, if RecordIsNewer(s, record) then |rs| else w)
  {
    var rs', home' := rs + [record], home + [k];
    forall j | In(home', k, j) && j < |rs|
      ensures In(home, k, j) && rs'[j] == rs[j]
      ensures RecordIsNewer(s, record) ==> !Less(record.createdAt, rs[j].createdAt)
    {
      assert In(home, k, j);
      LessTransitive(rs[j].createdAt, s.createdAt, record.createdAt);
    }
    LessTotal(record.createdAt, record.createdAt);
    LessTotal(record.createdAt, s.createdAt);
  }

  /** The class the new input joins is represented by the merge. */
  lemma JoinedClass(rs: seq<Record>, home: seq<nat>, record: Record, k: nat, w: int, s: Record)
    requires Represents(rs, home, k, w, s)
    ensures Represents(rs + [record], home + [k], k, if RecordIsNewer(s, record) then |rs| else w, Merged(s, record))
  {
    hide Canonical, SortedSet, MergeLinks, Less;
    var rs', home', n := rs + [record], home + [k], |rs|;
    var w', s' := if RecordIsNewer(s, record) then n else w, Merged(s, record);
    JoinNewest(rs, home, record, k, w, s);
    assert forall j :: In(home', k, j) <==> In(home, k, j) || j == n;
    assert forall j :: In(home, k, j) ==> rs'[j] == rs[j];
    assert In(home', k, w) && In(home', k, n) && w != n;
    assert rs'[n] == record;
    forall x ensures x in s'.superseded <==>
        exists j :: In(home', k, j) && ((j != w' && x == rs'[j].id) || x in rs'[j].superseded)
    {
      assert x in s'.superseded <==>
             x in s.superseded || x in record.superseded || x == (if w' == n then s.id else record.id);
      assert s.id == rs'[w].id;
    }
    assert forall x :: x in s'.links <==> x in s.links || x in record.links;
    assert forall f :: f in SENSITIVE ==> (f in s'.tags <==> f in s.tags || f in record.tags);
    MergedTagsAreCanonical(s, record);
  }

  lemma MergedTagsAreCanonical(s: Record, record: Record)
    ensures var t := Merged(s, record).tags; t == Canonical(f => f in t)
  {
    hide Canonical, SortedSet, MergeLinks, Less;
    MergeTagsIsCanonical(s.tags, record.tags);
    MergeTagsIsCanonical(record.tags, s.tags);
  }

  lemma MergeTagsIsCanonical(a: seq<string>, b: seq<string>)
    ensures var t := MergeTags(a, b); t == Canonical(f => f in t)
  {
    hide Canonical;
    var t := MergeTags(a, b);
    CanonicalExtensional(f => f in a || f in b, f => f in t);
  }

  lemma CanonicalExtensional(p: string -> bool, q: string -> bool)
    requires forall f :: f in SENSITIVE ==> p(f) == q(f)
    ensures Canonical(p) == Canonical(q)
  {
    KeepExtensional(SENSITIVE, p, q);
  }

  lemma {:induction false} KeepExtensional(flags: seq<string>, p: string -> bool, q: string -> bool)
    requires forall f :: f in flags ==> p(f) == q(f)
    ensures Keep(flags, p) == Keep(flags, q)
  {
    if flags != [] {
      assert flags[0] in flags && forall f :: f in flags[1..] ==> f in flags;
      KeepExtensional(flags[1..], p, q);
    }
  }

  /** Every input has a home, and every survivor represents its class. */
  ghost predicate Accounted(rs: seq<Record>, home: seq<nat>, survivors: seq<Record>, winners: seq<int>) {
    && |winners| == |survivors| && |home| == |rs|
    && (forall j :: 0 <= j < |home| ==> home[j] < |survivors|)
    && (forall k :: 0 <= k < |survivors| ==> Represents(rs, home, k, winners[k], survivors[k]))
  }

  /** Dedup loses nothing: every input has a home among the survivors, and each survivor
      represents exactly its class, for every input list, threshold and signature. */
  lemma {:induction false} EverySurvivorRepresents(policy: Policy, rs: seq<Record>) returns (winners: seq<int>)
    ensures Accounted(rs, Home(policy, rs), DedupRecords(policy, rs).survivors, winners)
  {
    if rs == [] {
      winners := [];
    } else {
      hide Accounted, Step, FirstMatch, Home, DedupRecords;
      var before, record := rs[..|rs| - 1], rs[|rs| - 1];
      assert rs == before + [record];
      var ws := EverySurvivorRepresents(policy, before);
      UnfoldLast(policy, rs);
      winners := StepAccounts(policy, before, Home(policy, before), DedupRecords(policy, before), record, ws);
    }
  }

  lemma StepAccounts(policy: Policy, rs: seq<Record>, home: seq<nat>, st: State, record: Record, ws: seq<int>)
    returns (winners: seq<int>)
    requires Accounted(rs, home, st.survivors, ws)
    ensures Accounted(rs + [record], home + [FirstMatch(policy, st.survivors, record)],
                      Step(policy, st, record).survivors, winners)
  {
    hide Represents, FirstMatch, Merged, Collision, Less;
    var k := FirstMatch(policy, st.survivors, record);
    if k == |st.survivors| {
      winners := ws + [|rs|];
      FreshClass(rs, home, record, k);
    } else {
      winners := ws[k := if RecordIsNewer(st.survivors[k], record) then |rs| else ws[k]];
      JoinedClass(rs, home, record, k, ws[k], st.survivors[k]);
    }
    forall i | 0 <= i < |st.survivors| && i != k
      ensures Represents(rs + [record], home + [k], i, ws[i], st.survivors[i])
    {
      OtherClass(rs, home, record, k, i, ws[i], st.survivors[i]);
    }
  }

  lemma UnfoldLast(policy: Policy, rs: seq<Record>)
    requires rs != []
    ensures var before, record := rs[..|rs| - 1], rs[|rs| - 1];
            var st := DedupRecords(policy, before);
            && DedupRecords(policy, rs) == Step(policy, st, record)
            && Home(policy, rs) == Home(policy, before) + [FirstMatch(policy, st.survivors, record)]
  {
  }

  // --------------------------------------------------------------- conservation

  function Ids(rs: seq<Record>): seq<string> { seq(|rs|, i requires 0 <= i < |rs| => rs[i].id) }

  function Gone(ms: seq<Merge>): seq<string> { seq(|ms|, i requires 0 <= i < |ms| => ms[i].superseded) }

  lemma StepConserves(policy: Policy, st: State, record: Record)
    ensures var st' := Step(policy, st, record);
            && |st'.survivors| + |st'.merges| == |st.survivors| + |st.merges| + 1
            && multiset(Ids(st'.survivors)) + multiset(Gone(st'.merges)) ==
               multiset(Ids(st.survivors)) + multiset(Gone(st.merges)) + multiset{record.id}
  {
    hide FirstMatch, Absorb, Collision, RecordIsNewer, Ids, Gone, Merged;
    var k := FirstMatch(policy, st.survivors, record);
    if k == |st.survivors| {
      IdsConcat(st.survivors, [record]);
      IdsOne(record);
    } else {
      var prior := st.survivors[k];
      MergedId(prior, record);
      IdsUpdate(st.survivors, k, Merged(prior, record));
      var event := Step(policy, st, record).merges[|st.merges|];
      assert Step(policy, st, record).merges == st.merges + [event];
      GoneConcat(st.merges, [event]);
      GoneOne(event);
      Swap(multiset(Ids(st.survivors)), multiset(Ids(Step(policy, st, record).survivors)),
           multiset(Gone(st.merges)), prior.id, record.id, Merged(prior, record).id, event.superseded);
      assert multiset(Gone(st.merges + [event])) == multiset(Gone(st.merges)) + multiset{event.superseded};
    }
  }

  lemma Swap(before: multiset<string>, after: multiset<string>, events: multiset<string>, prior: string,
             record: string, kept: string, gone: string)
    requires after + multiset{prior} == before + multiset{kept}
    requires (kept == record && gone == prior) || (kept == prior && gone == record)
    ensures after + (events + multiset{gone}) == before + events + multiset{record}
  {
    assert after + multiset{prior} - multiset{prior} == after;
  }

  lemma IdsSnoc(rs: seq<Record>)
    requires rs != []
    ensures multiset(Ids(rs)) == multiset(Ids(rs[..|rs| - 1])) + multiset{rs[|rs| - 1].id}
  {
    assert Ids(rs) == Ids(rs[..|rs| - 1]) + [rs[|rs| - 1].id];
  }

  lemma IdsOne(r: Record)
    ensures Ids([r]) == [r.id]
  {
  }

  lemma GoneOne(m: Merge)
    ensures Gone([m]) == [m.superseded]
  {
  }

  /** Survivors and merge events account for every input, id by id. */
  lemma {:induction false} DedupConserves(policy: Policy, rs: seq<Record>)
    ensures var st := DedupRecords(policy, rs);
            && |st.survivors| + |st.merges| == |rs|
            && multiset(Ids(st.survivors)) + multiset(Gone(st.merges)) == multiset(Ids(rs))
  {
    if rs != [] {
      hide Step, DedupRecords, Ids, Gone, Home;
      var before, record := rs[..|rs| - 1], rs[|rs| - 1];
      DedupConserves(policy, before);
      UnfoldLast(policy, rs);
      StepConserves(policy, DedupRecords(policy, before), record);
      IdsSnoc(rs);
    }
  }

  lemma IdsUpdate(rs: seq<Record>, k: nat, r: Record)
    requires k < |rs|
    ensures multiset(Ids(rs[k := r])) + multiset{rs[k].id} == multiset(Ids(rs)) + multiset{r.id}
  {
    assert Ids(rs[k := r]) == Ids(rs)[k := r.id];
    assert Ids(rs)[k] == rs[k].id;
  }

  lemma MergedId(s: Record, record: Record)
    ensures Merged(s, record).id == if RecordIsNewer(s, record) then record.id else s.id
    ensures Merged(s, record).tier == if RecordIsNewer(s, record) then record.tier else s.tier
  {
  }

  // ----------------------------------------------------------------- the tiers

  function OfTier(rs: seq<Record>, tier: string): seq<Record> {
    if rs == [] then [] else (if rs[0].tier == tier then [rs[0]] else []) + OfTier(rs[1..], tier)
  }

  lemma {:induction false} OfTierMembers(rs: seq<Record>, tier: string)
    ensures forall x :: x in OfTier(rs, tier) <==> x in rs && x.tier == tier
  {
    if rs != [] {
      OfTierMembers(rs[1..], tier);
      assert rs == [rs[0]] + rs[1..];
    }
  }

  function TiersOf(rs: seq<Record>): seq<string> { SortedSet(seq(|rs|, i requires 0 <= i < |rs| => rs[i].tier)) }

  function DedupTiers(policy: Policy, rs: seq<Record>, tiers: seq<string>): State {
    if tiers == [] then State([], [])
    else
      var first, rest := DedupRecords(policy, OfTier(rs, tiers[0])), DedupTiers(policy, rs, tiers[1..]);
      State(first.survivors + rest.survivors, first.merges + rest.merges)
  }

  /** `dedup_within_tiers`: each tier's records, deduplicated apart, in sorted tier order. */
  function DedupWithinTiers(policy: Policy, rs: seq<Record>): State { DedupTiers(policy, rs, TiersOf(rs)) }

  /** A survivor of the whole pass stands for one class of one tier. */
  ghost predicate StandsFor(policy: Policy, rs: seq<Record>, s: Record, k: nat) {
    var part := OfTier(rs, s.tier);
    && k < |DedupRecords(policy, part).survivors|
    && DedupRecords(policy, part).survivors[k] == s
    && exists w :: Represents(part, Home(policy, part), k, w, s)
  }

  /** No class crosses a tier, and every survivor stands for a class of its own tier. */
  lemma {:induction false} TierSurvivors(policy: Policy, rs: seq<Record>, tiers: seq<string>, i: nat) returns (k: nat)
    requires i < |DedupTiers(policy, rs, tiers).survivors|
    ensures StandsFor(policy, rs, DedupTiers(policy, rs, tiers).survivors[i], k)
  {
    hide DedupRecords, Represents, Home;
    var part := OfTier(rs, tiers[0]);
    var first := DedupRecords(policy, part).survivors;
    if i < |first| {
      var winners := EverySurvivorRepresents(policy, part);
      k := i;
      OfTierMembers(rs, tiers[0]);
      RepresentsTier(part, Home(policy, part), k, winners[k], first[k]);
    } else {
      k := TierSurvivors(policy, rs, tiers[1..], i - |first|);
    }
  }

  lemma RepresentsTier(part: seq<Record>, home: seq<nat>, k: nat, w: int, s: Record)
    requires Represents(part, home, k, w, s)
    ensures 0 <= w < |part| && s.tier == part[w].tier && part[w] in part
  {
  }

  lemma RepresentsMember(part: seq<Record>, home: seq<nat>, k: nat, w: int, s: Record, j: nat)
    requires Represents(part, home, k, w, s) && In(home, k, j)
    ensures s.id == part[j].id || part[j].id in s.superseded
    ensures forall x :: x in part[j].links ==> x in s.links
    ensures forall f :: f in SENSITIVE && f in part[j].tags ==> f in s.tags
  {
    hide Canonical, Less;
    assert j != w ==> part[j].id in s.superseded;
  }

  /** Every input record is kept or accounted for by a survivor of its own tier, which
      carries its id, its links and its sensitive flags. */
  lemma EveryRecordHasASurvivor(policy: Policy, rs: seq<Record>, r: Record) returns (s: Record)
    requires r in rs
    ensures s in DedupWithinTiers(policy, rs).survivors && s.tier == r.tier
    ensures s.id == r.id || r.id in s.superseded
    ensures forall x :: x in r.links ==> x in s.links
    ensures forall f :: f in SENSITIVE && f in r.tags ==> f in s.tags
  {
    hide DedupRecords, Home, DedupTiers, TiersOf, Represents;
    var part := OfTier(rs, r.tier);
    OfTierMembers(rs, r.tier);
    var j: int :| 0 <= j < |part| && part[j] == r;
    var winners := EverySurvivorRepresents(policy, part);
    var home, survivors := Home(policy, part), DedupRecords(policy, part).survivors;
    var k := home[j];
    s := survivors[k];
    RepresentsTier(part, home, k, winners[k], s);
    RepresentsMember(part, home, k, winners[k], s, j);
    TierIsListed(rs, r);
    TierIsIncluded(policy, rs, TiersOf(rs), r.tier, s);
  }

  lemma TierIsListed(rs: seq<Record>, r: Record)
    requires r in rs
    ensures r.tier in TiersOf(rs)
  {
    var i :| 0 <= i < |rs| && rs[i] == r;
    var tiers := seq(|rs|, i requires 0 <= i < |rs| => rs[i].tier);
    assert tiers[i] == r.tier;
  }

  lemma {:induction false} TierIsIncluded(policy: Policy, rs: seq<Record>, tiers: seq<string>, tier: string, s: Record)
    requires tier in tiers && s in DedupRecords(policy, OfTier(rs, tier)).survivors
    ensures s in DedupTiers(policy, rs, tiers).survivors
  {
    hide DedupRecords;
    if tiers[0] != tier { TierIsIncluded(policy, rs, tiers[1..], tier, s); }
  }

  /** Conservation over all tiers. */
  lemma WithinTiersConserves(policy: Policy, rs: seq<Record>)
    ensures var st := DedupWithinTiers(policy, rs);
            multiset(Ids(st.survivors)) + multiset(Gone(st.merges)) == multiset(Ids(rs))
  {
    hide DedupTiers, Ids, Gone, OfTier;
    TiersConserve(policy, rs, TiersOf(rs));
    forall r | r in rs ensures r.tier in TiersOf(rs) { TierIsListed(rs, r); }
    AllTiers(rs, TiersOf(rs));
  }

  function OfTiers(rs: seq<Record>, tiers: seq<string>): seq<Record> {
    if rs == [] then [] else (if rs[0].tier in tiers then [rs[0]] else []) + OfTiers(rs[1..], tiers)
  }

  lemma {:induction false} AllTiers(rs: seq<Record>, tiers: seq<string>)
    requires forall r :: r in rs ==> r.tier in tiers
    ensures OfTiers(rs, tiers) == rs
  {
    if rs != [] {
      AllTiers(rs[1..], tiers);
      assert rs == [rs[0]] + rs[1..];
    }
  }

  lemma IdsConcat(a: seq<Record>, b: seq<Record>)
    ensures Ids(a + b) == Ids(a) + Ids(b)
  {
  }

  lemma GoneConcat(a: seq<Merge>, b: seq<Merge>)
    ensures Gone(a + b) == Gone(a) + Gone(b)
  {
  }

  lemma IdsGuarded(c: bool, r: Record, rest: seq<Record>)
    ensures multiset(Ids((if c then [r] else []) + rest)) ==
            (if c then multiset{r.id} else multiset{}) + multiset(Ids(rest))
  {
    hide Ids;
    IdsConcat([r], rest);
    IdsOne(r);
    assert [] + rest == rest;
  }

  lemma {:induction false} SplitTier(rs: seq<Record>, tiers: seq<string>)
    requires tiers != [] && tiers[0] !in tiers[1..]
    ensures multiset(Ids(OfTiers(rs, tiers))) ==
            multiset(Ids(OfTier(rs, tiers[0]))) + multiset(Ids(OfTiers(rs, tiers[1..])))
  {
    hide Ids;
    if rs == [] {
      NoTier(rs);
    } else {
      var r, rest := rs[0], rs[1..];
      SplitTier(rest, tiers);
      assert tiers == [tiers[0]] + tiers[1..];
      IdsGuarded(r.tier in tiers, r, OfTiers(rest, tiers));
      IdsGuarded(r.tier == tiers[0], r, OfTier(rest, tiers[0]));
      IdsGuarded(r.tier in tiers[1..], r, OfTiers(rest, tiers[1..]));
    }
  }

  lemma {:induction false} TiersConserve(policy: Policy, rs: seq<Record>, tiers: seq<string>)
    requires Sorted(tiers)
    ensures var st := DedupTiers(policy, rs, tiers);
            multiset(Ids(st.survivors)) + multiset(Gone(st.merges)) == multiset(Ids(OfTiers(rs, tiers)))
  {
    hide DedupRecords, Ids, Gone;
    if tiers == [] {
      NoTier(rs);
    } else {
      DedupConserves(policy, OfTier(rs, tiers[0]));
      TiersConserve(policy, rs, tiers[1..]);
      LessTotal(tiers[0], tiers[0]);
      SplitTier(rs, tiers);
      var first, rest := DedupRecords(policy, OfTier(rs, tiers[0])), DedupTiers(policy, rs, tiers[1..]);
      IdsConcat(first.survivors, rest.survivors);
      GoneConcat(first.merges, rest.merges);
    }
  }

  lemma {:induction false} NoTier(rs: seq<Record>)
    ensures OfTiers(rs, []) == [] && Ids([]) == [] && Gone([]) == []
  {
    if rs != [] { NoTier(rs[1..]); }
  }
}

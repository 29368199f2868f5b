/** scripts/curator/runner.py: the runner's tag, normalise, dedup and tier-placement
    phases, which update their records in place, and what reaches the shared corpus. */
module CuratorPipeline {
  import opened Lists
  import opened Dedup

  const RECALL_COLLECTIONS := ["decisions", "skills", "semantic"]

  datatype Raw = Raw(collection: string, id: string, text: string, tier: string, createdAtMs: int, links: seq<string>)

  /** The text helpers the phases call: does a flag's pattern match, `str.strip`, the marker
      and links of a raw record, and the ISO date the n-th record gets: its creation time,
      or the clock's when it has none. */
  datatype Lexicon = Lexicon(matches: (string, string) -> bool, strip: string -> string,
                             marker: Raw -> string, links: Raw -> seq<string>, date: (nat, Raw) -> string)

  function TagSensitivity(lex: Lexicon, text: string): seq<string> { Canonical(f => lex.matches(f, text)) }

  // ------------------------------------------------------------------ C3, C4

  type Tags = map<string, seq<string>>

  /** `self.tags`, keyed by document id alone: the last record with an id decides. */
  function TagAll(lex: Lexicon, raw: seq<Raw>): Tags {
    if raw == [] then map[]
    else
      var last := raw[|raw| - 1];
      TagAll(lex, raw[..|raw| - 1])[last.id := TagSensitivity(lex, last.text)]
  }

  predicate WellFormed(lex: Lexicon, r: Raw) {
    lex.strip(r.id) != [] && lex.strip(r.text) != [] && r.collection in RECALL_COLLECTIONS
  }

  function Normalized(lex: Lexicon, n: nat, r: Raw, tags: seq<string>): Record {
    Record(r.collection, r.id, lex.marker(r), lex.strip(r.text), r.tier, lex.date(n, r), lex.links(r), tags, [])
  }

  function TagsFor(tags: Tags, id: string): seq<string> { if id in tags then tags[id] else [PUBLIC_SAFE] }

  function NormalizeAll(lex: Lexicon, raw: seq<Raw>, tags: Tags): seq<Record> {
    if raw == [] then []
    else
      var last := raw[|raw| - 1];
      NormalizeAll(lex, raw[..|raw| - 1], tags) +
      if WellFormed(lex, last) then [Normalized(lex, |raw| - 1, last, TagsFor(tags, last.id))] else []
  }

  function Flagged(lex: Lexicon, raw: seq<Raw>): seq<string> {
    if raw == [] then []
    else
      var last := raw[|raw| - 1];
      Flagged(lex, raw[..|raw| - 1]) +
      if WellFormed(lex, last) then [] else [if last.id == [] then "<no-id>" else last.id]
  }

  /** Nothing is dropped silently: every raw record is normalised or flagged. */
  lemma {:induction false} NormalizeConserves(lex: Lexicon, raw: seq<Raw>, tags: Tags)
    ensures |NormalizeAll(lex, raw, tags)| + |Flagged(lex, raw)| == |raw|
  {
    if raw != [] { NormalizeConserves(lex, raw[..|raw| - 1], tags); }
  }

  /** Every normalised record comes from a raw record. */
  lemma {:induction false} NormalizedFrom(lex: Lexicon, raw: seq<Raw>, tags: Tags, c: Record) returns (i: nat)
    requires c in NormalizeAll(lex, raw, tags)
    ensures i < |raw| && WellFormed(lex, raw[i]) && c == Normalized(lex, i, raw[i], TagsFor(tags, raw[i].id))
  {
    hide Normalized, WellFormed;
    var before := raw[..|raw| - 1];
    if c in NormalizeAll(lex, before, tags) {
      i := NormalizedFrom(lex, before, tags, c);
    } else {
      i := |raw| - 1;
    }
  }

  /** A raw record that has an id and a text, of one of the three collections. */
  ghost predicate Acceptable(lex: Lexicon, r: Raw) {
    lex.strip(r.id) != "" && lex.strip(r.text) != "" && r.collection in {"decisions", "skills", "semantic"}
  }

  /** What normalisation makes of the raw records: each acceptable one becomes a record of
      its own id, collection, tier and stripped text, with its marker, links, date and tags
      and nothing superseded; of each other one only the id is flagged. */
  lemma {:induction false} NormalizedIff(lex: Lexicon, raw: seq<Raw>, tags: Tags, c: Record, id: string)
    ensures c in NormalizeAll(lex, raw, tags) <==>
            exists n: nat :: n < |raw| && Acceptable(lex, raw[n]) && NormalOf(lex, tags, n, raw[n], c)
    ensures id in Flagged(lex, raw) <==>
            exists n: nat :: n < |raw| && !Acceptable(lex, raw[n]) &&
              id == if raw[n].id == "" then "<no-id>" else raw[n].id
  {
    if raw != [] {
      hide TagsFor;
      var n := |raw| - 1;
      NormalizedIff(lex, raw[..n], tags, c, id);
      assert WellFormed(lex, raw[n]) <==> Acceptable(lex, raw[n]);
      assert NormalOf(lex, tags, n, raw[n], Normalized(lex, n, raw[n], TagsFor(tags, raw[n].id)));
      hide WellFormed, Acceptable;
      assert forall k :: 0 <= k < n ==> raw[..n][k] == raw[k];
    }
  }

  ghost predicate NormalOf(lex: Lexicon, tags: Tags, n: nat, r: Raw, c: Record) {
    && c.collection == r.collection && c.id == r.id && c.tier == r.tier && c.text == lex.strip(r.text)
    && c.marker == lex.marker(r) && c.links == lex.links(r) && c.createdAt == lex.date(n, r) && c.superseded == []
    && c.tags == if r.id in tags then tags[r.id] else ["public-safe"]
  }

  /** The tag stored for an id is that of the last record carrying it. */
  lemma {:induction false} LastDecides(lex: Lexicon, raw: seq<Raw>, i: nat) returns (j: nat)
    requires i < |raw|
    ensures j < |raw| && raw[j].id == raw[i].id
    ensures raw[i].id in TagAll(lex, raw) && TagAll(lex, raw)[raw[i].id] == TagSensitivity(lex, raw[j].text)
  {
    hide TagSensitivity;
    if raw[|raw| - 1].id == raw[i].id {
      j := |raw| - 1;
    } else {
      j := LastDecides(lex, raw[..|raw| - 1], i);
    }
  }

  /** Every record is tagged by its own text exactly when records that share a document
      id have equal flags; in particular when no id is shared. */
  lemma TagsAreOwnText(lex: Lexicon, raw: seq<Raw>)
    ensures (forall i :: 0 <= i < |raw| ==> TagsFor(TagAll(lex, raw), raw[i].id) == TagSensitivity(lex, raw[i].text))
       <==> (forall i, j :: 0 <= i < |raw| && 0 <= j < |raw| && raw[i].id == raw[j].id ==>
               TagSensitivity(lex, raw[i].text) == TagSensitivity(lex, raw[j].text))
  {
    hide TagSensitivity, TagsFor, TagAll;
    if forall i, j :: 0 <= i < |raw| && 0 <= j < |raw| && raw[i].id == raw[j].id ==>
         TagSensitivity(lex, raw[i].text) == TagSensitivity(lex, raw[j].text)
    {
      forall i | 0 <= i < |raw| ensures TagsFor(TagAll(lex, raw), raw[i].id) == TagSensitivity(lex, raw[i].text) {
        var j := LastDecides(lex, raw, i);
        StoredTags(lex, raw, i);
      }
    }
  }

  lemma StoredTags(lex: Lexicon, raw: seq<Raw>, i: nat)
    requires i < |raw| && raw[i].id in TagAll(lex, raw)
    ensures TagsFor(TagAll(lex, raw), raw[i].id) == TagAll(lex, raw)[raw[i].id]
  {
    hide TagAll;
  }

  // --------------------------------------------------------- what is promoted

  /** C6's gate: a private record whose tags are exactly the default one. */
  predicate Promotable(s: Record) { s.tier != "corpus" && s.tags == [PUBLIC_SAFE] }

  function Curated(lex: Lexicon, policy: Policy, raw: seq<Raw>): seq<Record> {
    DedupWithinTiers(policy, NormalizeAll(lex, raw, TagAll(lex, raw))).survivors
  }

  /** Every record of class `k` of the tier was tagged exactly public-safe. */
  ghost predicate ClassIsPublic(policy: Policy, cs: seq<Record>, tier: string, k: nat) {
    var part := OfTier(cs, tier);
    forall j :: In(Home(policy, part), k, j) ==> part[j].tags == [PUBLIC_SAFE]
  }

  /** A survivor is eligible for the promotion call if and only if every record it
      absorbed, through normalisation, dedup and tier placement, was tagged exactly
      public-safe. */
  lemma PromotionIsSafe(lex: Lexicon, policy: Policy, raw: seq<Raw>, i: nat) returns (k: nat)
    requires i < |Curated(lex, policy, raw)|
    ensures var cs, s := NormalizeAll(lex, raw, TagAll(lex, raw)), Curated(lex, policy, raw)[i];
            && StandsFor(policy, cs, s, k)
            && (Promotable(s) <==> s.tier != "corpus" && ClassIsPublic(policy, cs, s.tier, k))
  {
    hide StandsFor, Home, DedupTiers, TiersOf, NormalizeAll, TagAll;
    var cs := NormalizeAll(lex, raw, TagAll(lex, raw));
    var s := Curated(lex, policy, raw)[i];
    k := TierSurvivors(policy, cs, TiersOf(cs), i);
    var part := OfTier(cs, s.tier);
    if Promotable(s) {
      forall j | In(Home(policy, part), k, j) ensures part[j].tags == [PUBLIC_SAFE] {
        AbsorbedFlags(policy, cs, s, k, j);
        OfTierMembers(cs, s.tier);
        assert part[j] in part;
        TagsAreCanonical(lex, raw, part[j]);
        assert forall f :: f in SENSITIVE ==> f !in part[j].tags;
      }
    } else if ClassIsPublic(policy, cs, s.tier, k) {
      PublicClass(policy, cs, s, k);
    }
  }

  lemma PublicClass(policy: Policy, cs: seq<Record>, s: Record, k: nat)
    requires StandsFor(policy, cs, s, k) && ClassIsPublic(policy, cs, s.tier, k)
    ensures s.tags == [PUBLIC_SAFE]
  {
    hide DedupRecords, Home, Less;
    var part := OfTier(cs, s.tier);
    var home := Home(policy, part);
    var w :| Represents(part, home, k, w, s);
    assert forall f :: f in SENSITIVE ==> f !in [PUBLIC_SAFE];
    assert In(home, k, w);
  }

  lemma AbsorbedFlags(policy: Policy, cs: seq<Record>, s: Record, k: nat, j: nat)
    requires StandsFor(policy, cs, s, k) && In(Home(policy, OfTier(cs, s.tier)), k, j)
    ensures forall f :: f in SENSITIVE && f in OfTier(cs, s.tier)[j].tags ==> f in s.tags
  {
    hide DedupRecords, Home, Represents;
    var part := OfTier(cs, s.tier);
    var w :| Represents(part, Home(policy, part), k, w, s);
    RepresentsMember(part, Home(policy, part), k, w, s, j);
  }

  lemma TagsAreCanonical(lex: Lexicon, raw: seq<Raw>, c: Record)
    requires c in NormalizeAll(lex, raw, TagAll(lex, raw))
    ensures (forall f :: f in SENSITIVE ==> f !in c.tags) ==> c.tags == [PUBLIC_SAFE]
  {
    hide NormalizeAll, TagAll;
    var i := NormalizedFrom(lex, raw, TagAll(lex, raw), c);
    var j := LastDecides(lex, raw, i);
  }

  /** From the raw texts: when records sharing an id have equal flags, a promoted record
      absorbed only records whose own text matches no sensitive pattern. */
  lemma PromotedTextsAreClean(lex: Lexicon, policy: Policy, raw: seq<Raw>, i: nat, c: Record) returns (k: nat, r: nat)
    requires i < |Curated(lex, policy, raw)| && Promotable(Curated(lex, policy, raw)[i])
    requires forall a, b :: 0 <= a < |raw| && 0 <= b < |raw| && raw[a].id == raw[b].id ==>
               TagSensitivity(lex, raw[a].text) == TagSensitivity(lex, raw[b].text)
    requires c in NormalizeAll(lex, raw, TagAll(lex, raw))
    ensures var cs, s := NormalizeAll(lex, raw, TagAll(lex, raw)), Curated(lex, policy, raw)[i];
            var part := OfTier(cs, s.tier);
            && StandsFor(policy, cs, s, k)
            && r < |raw| && c == Normalized(lex, r, raw[r], TagsFor(TagAll(lex, raw), raw[r].id))
            && ((exists j :: In(Home(policy, part), k, j) && part[j] == c) ==>
                  forall f :: f in SENSITIVE ==> !lex.matches(f, raw[r].text))
  {
    k := PromotionIsSafe(lex, policy, raw, i);
    r := NormalizedFrom(lex, raw, TagAll(lex, raw), c);
    TagsAreOwnText(lex, raw);
    hide StandsFor, Home, Curated, NormalizeAll, TagAll;
    assert TagsFor(TagAll(lex, raw), raw[r].id) == TagSensitivity(lex, raw[r].text);
  }

  /** With a shared id the law fails: a sensitive record followed by a clean one under the
      same id is tagged clean, and when it is the newer of the two its own text is what
      survives and is promoted. */
  lemma SharedIdIsPromoted(lex: Lexicon, policy: Policy, a: Raw, b: Raw, flag: string)
    requires a.id == b.id && a.tier == b.tier == "private" && WellFormed(lex, a) && WellFormed(lex, b)
    requires flag in SENSITIVE && lex.matches(flag, a.text)
    requires forall f :: f in SENSITIVE ==> !lex.matches(f, b.text)
    requires Less(lex.date(1, b), lex.date(0, a))
    ensures var out := Curated(lex, policy, [a, b]);
            |out| == 1 && Promotable(out[0]) && out[0].text == lex.strip(a.text)
  {
    hide Less, Canonical, DedupTiers, TiersOf, WellFormed;
    var safe := [PUBLIC_SAFE];
    SharedIdTags(lex, a, b);
    var x, y := Normalized(lex, 0, a, safe), Normalized(lex, 1, b, safe);
    assert NormalizeAll(lex, [a, b], TagAll(lex, [a, b])) == [x] + [y] by {
      NormalizePair(lex, a, b, TagAll(lex, [a, b]));
    }
    PairOfOneTier(policy, x, y);
    assert forall f :: f in SENSITIVE ==> f !in safe;
  }

  lemma SharedIdTags(lex: Lexicon, a: Raw, b: Raw)
    requires a.id == b.id && forall f :: f in SENSITIVE ==> !lex.matches(f, b.text)
    ensures TagsFor(TagAll(lex, [a, b]), a.id) == [PUBLIC_SAFE]
  {
    hide Canonical;
  }

  lemma NormalizePair(lex: Lexicon, a: Raw, b: Raw, tags: Tags)
    requires WellFormed(lex, a) && WellFormed(lex, b)
    ensures NormalizeAll(lex, [a, b], tags) ==
            [Normalized(lex, 0, a, TagsFor(tags, a.id))] + [Normalized(lex, 1, b, TagsFor(tags, b.id))]
  {
    hide WellFormed, Normalized;
    assert [a, b][..1] == [a] && [a][..0] == [];
    assert NormalizeAll(lex, [a], tags) == [] + [Normalized(lex, 0, a, TagsFor(tags, a.id))];
  }

  lemma PairOfOneTier(policy: Policy, x: Record, y: Record)
    requires x.id == y.id && x.tier == y.tier && Less(y.createdAt, x.createdAt)
    ensures DedupWithinTiers(policy, [x] + [y]).survivors == [Absorb(x, y)]
  {
    hide Absorb, Less, SortedSet, DedupRecords, OfTier, TiersOf;
    var cs := [x] + [y];
    OneTier(cs, x.tier);
    OfTierAll(cs, x.tier);
    PairMerges(policy, x, y);
    assert [x.tier][1..] == [];
    assert DedupTiers(policy, cs, []) == State([], []);
    assert [Absorb(x, y)] + [] == [Absorb(x, y)];
  }

  lemma {:induction false} OfTierAll(cs: seq<Record>, tier: string)
    requires forall c :: c in cs ==> c.tier == tier
    ensures OfTier(cs, tier) == cs
  {
    if cs != [] {
      OfTierAll(cs[1..], tier);
      assert cs == [cs[0]] + cs[1..];
    }
  }

  lemma PairMerges(policy: Policy, x: Record, y: Record)
    requires x.id == y.id && Less(y.createdAt, x.createdAt)
    ensures DedupRecords(policy, [x] + [y]).survivors == [Absorb(x, y)]
  {
    hide Absorb, Less, Collision;
    var none: seq<Record> := [];
    assert ([x] + [y])[..1] == [x] && [x][..0] == none;
    assert DedupRecords(policy, [x]) == Step(policy, DedupRecords(policy, none), x);
    assert DedupRecords(policy, [x]).survivors == [x];
    assert FirstMatch(policy, [x], y) == 0;
    assert [x][0 := Absorb(x, y)] == [Absorb(x, y)];
  }

  lemma OneTier(cs: seq<Record>, tier: string)
    requires cs != [] && forall c :: c in cs ==> c.tier == tier
    ensures TiersOf(cs) == [tier]
  {
    hide Less;
    var all := seq(|cs|, i requires 0 <= i < |cs| => cs[i].tier);
    assert forall i :: 0 <= i < |all| ==> all[i] == cs[i].tier && cs[i] in cs;
    var ts := TiersOf(cs);
    TierIsListed(cs, cs[0]);
    LessTotal(tier, tier);
    assert forall t :: t in ts ==> t in all;
    assert forall i :: 0 <= i < |ts| ==> ts[i] in ts;
    var a, b := ts[0], ts[|ts| - 1];
    assert |ts| > 1 ==> Less(a, b);
  }

  // ---------------------------------------------------------- the runner itself

  /** The memory server's promotion endpoint: it logs every call and may answer anything. */
  class CorpusServer {
    const answer: (nat, Record) -> int
    var calls: seq<Record>

    constructor (answer: (nat, Record) -> int)
      ensures calls == [] && this.answer == answer
    {
      this.answer, calls := answer, [];
    }

    method Promote(r: Record) returns (status: int)
      modifies this
      ensures calls == old(calls) + [r] && status == answer(old(|calls|), r)
    {
      status := answer(|calls|, r);
      calls := calls + [r];
    }
  }

  class CuratedRecord {
    const collection: string
    const id: string
    const marker: string
    const text: string
    const tier: string
    const createdAt: string
    var links: seq<string>
    var tags: seq<string>
    var superseded: seq<string>
    var promotionStatus: string

    function View(): Record
      reads this
    {
      Record(collection, id, marker, text, tier, createdAt, links, tags, superseded)
    }

    constructor (r: Record)
      ensures View() == r
    {
      collection, id, marker, text, tier := r.collection, r.id, r.marker, r.text, r.tier;
      createdAt, links, tags, superseded := r.createdAt, r.links, r.tags, r.superseded;
      promotionStatus := "";
    }

    /** C6 on one record: its new status, and the promotion call the server saw, if any. */
    method Place(server: CorpusServer)
      modifies this`promotionStatus, server
      ensures server.calls == old(server.calls) + if Promotable(View()) then [View()] else []
      ensures promotionStatus == PlacementStatus(server.answer(old(|server.calls|), View()), View())
    {
      if tier == "corpus" {
        promotionStatus := "n/a-already-corpus";
      } else if tags != [PUBLIC_SAFE] {
        promotionStatus := "refused-sensitive";
      } else {
        var status := server.Promote(View());
        promotionStatus :=
          if status == 200 then "promoted" else if status == 403 then "denied-scope" else "promotion-error";
      }
    }

    /** What the newer record does to itself when it absorbs the older one. */
    method AbsorbOlder(older: CuratedRecord)
      requires older != this
      modifies this`superseded, this`links, this`tags
      ensures View() == Absorb(old(View()), old(older.View()))
    {
      superseded := SortedSet(superseded + older.superseded + [older.id]);
      links := MergeLinks(links, older.links);
      tags := MergeTags(tags, older.tags);
    }
  }

  /** One tier's share of `dedup_within_tiers`; other tiers' records are not touched. */
  method DedupOneTier(policy: Policy, curated: seq<CuratedRecord>, ghost input: seq<Record>, tier: string,
                      survivors: seq<CuratedRecord>, found: seq<Merge>)
    returns (survivors': seq<CuratedRecord>, found': seq<Merge>)
    requires Distinct(curated) && |input| == |curated| && Distinct(survivors)
    requires forall i :: 0 <= i < |curated| ==> curated[i].tier == input[i].tier
    requires forall i :: 0 <= i < |curated| && curated[i].tier == tier ==> curated[i].View() == input[i]
    requires forall r :: r in survivors ==> r in curated && r.tier != tier
    modifies curated
    ensures forall r :: r in curated && r.tier != tier ==> r.View() == old(r.View())
    ensures State(Views(survivors'), found') ==
            var one := DedupRecords(policy, OfTier(input, tier));
            State(old(Views(survivors)) + one.survivors, found + one.merges)
    ensures Distinct(survivors')
    ensures forall r :: r in survivors' ==> r in survivors || (r in curated && r.tier == tier)
  {
    hide DedupRecords, OfTier, Views;
    var part := RecordsOfTier(curated, tier, input);
    ghost var before := Views(survivors);
    assert forall i :: 0 <= i < |part| ==> part[i] in part && part[i] in curated;
    var some, events := DedupInPlace(policy, part);
    assert forall i :: 0 <= i < |some| ==> some[i] in some && some[i] in part;
    assert forall i :: 0 <= i < |survivors| ==> survivors[i] in survivors && survivors[i] !in part;
    survivors', found' := survivors + some, found + events;
    assert Views(survivors) == before;
    ViewsConcat(survivors, some);
  }

  lemma ViewsConcat(a: seq<CuratedRecord>, b: seq<CuratedRecord>)
    ensures Views(a + b) == Views(a) + Views(b)
  {
    hide Views;
  }

  ghost predicate Distinct(rs: seq<CuratedRecord>) {
    forall i, j :: 0 <= i < j < |rs| ==> rs[i] != rs[j]
  }

  ghost function Views(rs: seq<CuratedRecord>): (v: seq<Record>)
    reads rs
    ensures |v| == |rs| && forall i :: 0 <= i < |rs| ==> v[i] == rs[i].View()
  {
    if rs == [] then [] else [rs[0].View()] + Views(rs[1..])
  }

  /** The inner loop of `dedup_records`: the first survivor the record collides with. */
  method FindMatch(policy: Policy, survivors: seq<CuratedRecord>, record: CuratedRecord)
    returns (k: nat, similarity: real)
    ensures k == FirstMatch(policy, Views(survivors), record.View())
    ensures k < |survivors| ==> similarity == Collision(policy, survivors[k].View(), record.View())
  {
    similarity := 0.0;
    k := 0;
    ghost var views := Views(survivors);
    while k < |survivors|
      invariant k <= |survivors|
      invariant forall i :: 0 <= i < k ==> !Collides(policy, views[i], record.View())
    {
      if survivors[k].id == record.id {
        similarity := 1.0;
        break;
      }
      var score := Jaccard(policy.signature(record.text), policy.signature(survivors[k].text));
      if score >= policy.threshold {
        similarity := score;
        break;
      }
      k := k + 1;
    }
    FirstMatchIs(policy, views, record.View(), k);
  }

  lemma {:induction false} FirstMatchIs(policy: Policy, survivors: seq<Record>, record: Record, k: nat)
    requires k <= |survivors| && (k < |survivors| ==> Collides(policy, survivors[k], record))
    requires forall i :: 0 <= i < k ==> !Collides(policy, survivors[i], record)
    ensures FirstMatch(policy, survivors, record) == k
  {
    hide Collides;
    if k > 0 {
      FirstMatchIs(policy, survivors[1..], record, k - 1);
    }
  }

  /** One round of `dedup_records`. */
  method StepInPlace(policy: Policy, survivors: seq<CuratedRecord>, merges: seq<Merge>, record: CuratedRecord)
    returns (survivors': seq<CuratedRecord>, merges': seq<Merge>)
    requires Distinct(survivors) && record !in survivors
    modifies survivors, record
    ensures State(Views(survivors'), merges') == Step(policy, State(old(Views(survivors)), merges), old(record.View()))
    ensures Distinct(survivors') && forall r :: r in survivors' ==> r in survivors || r == record
  {
    hide Absorb, Collision, FirstMatch, Less, Views;
    var k, similarity := FindMatch(policy, survivors, record);
    ghost var before, view := Views(survivors), record.View();
    if k == |survivors| {
      survivors', merges' := survivors + [record], merges;
      assert Views(survivors') == before + [view];
    } else {
      var survivor := survivors[k];
      var recordIsNewer := !Less(record.createdAt, survivor.createdAt);
      var newer, older := if recordIsNewer then record else survivor, if recordIsNewer then survivor else record;
      newer.AbsorbOlder(older);
      survivors' := survivors[k := newer];
      merges' := merges + [Merge(newer.id, older.id, similarity, newer.tier)];
      assert forall i :: 0 <= i < |survivors| && i != k ==> survivors[i] != newer;
      assert newer.View() == Merged(before[k], view);
      assert Views(survivors') == before[k := Merged(before[k], view)];
    }
  }

  /** `dedup_records`, updating the records themselves. */
  method DedupInPlace(policy: Policy, records: seq<CuratedRecord>)
    returns (survivors: seq<CuratedRecord>, merges: seq<Merge>)
    requires Distinct(records)
    modifies records
    ensures DedupRecords(policy, old(Views(records))) == State(Views(survivors), merges)
    ensures Distinct(survivors) && forall r :: r in survivors ==> r in records
  {
    hide Step, Views, DedupRecords;
    ghost var input := Views(records);
    survivors, merges := [], [];
    NothingToDedup(policy, input);
    for n := 0 to |records|
      invariant Distinct(survivors)
      invariant forall r :: r in survivors ==> r in records[..n]
      invariant forall i :: n <= i < |records| ==> records[i].View() == input[i]
      invariant DedupRecords(policy, input[..n]) == State(Views(survivors), merges)
    {
      assert forall i :: n <= i < |records| ==> records[i] !in records[..n];
      forall i | 0 <= i < |survivors| ensures survivors[i] in records {
        assert survivors[i] in survivors;
        var j :| 0 <= j < n && records[..n][j] == survivors[i];
      }
      DedupSnoc(policy, input, n);
      survivors, merges := StepInPlace(policy, survivors, merges, records[n]);
    }
    assert input[..|records|] == input;
  }

  lemma NothingToDedup(policy: Policy, input: seq<Record>)
    ensures DedupRecords(policy, input[..0]) == State([], [])
  {
  }

  lemma DedupSnoc(policy: Policy, input: seq<Record>, n: nat)
    requires n < |input|
    ensures DedupRecords(policy, input[..n + 1]) == Step(policy, DedupRecords(policy, input[..n]), input[n])
  {
    hide Step;
    assert input[..n + 1][..n] == input[..n];
  }

  class CuratorRunner {
    var raw: seq<Raw>
    var tags: Tags
    var curated: seq<CuratedRecord>
    var merges: seq<Merge>
    var flagged: seq<string>

    constructor ()
      ensures raw == [] && tags == map[] && curated == [] && merges == [] && flagged == []
    {
      raw, tags, curated, merges, flagged := [], map[], [], [], [];
    }

    method PhaseTag(lex: Lexicon)
      requires tags == map[]
      modifies this`tags
      ensures tags == TagAll(lex, raw)
    {
      hide TagSensitivity;
      for n := 0 to |raw|
        invariant tags == TagAll(lex, raw[..n])
      {
        assert raw[..n + 1][..n] == raw[..n];
        tags := tags[raw[n].id := TagSensitivity(lex, raw[n].text)];
      }
      assert raw[..|raw|] == raw;
    }

    method PhaseNormalize(lex: Lexicon)
      requires flagged == []
      modifies this`curated, this`flagged
      ensures Distinct(curated) && fresh(curated)
      ensures Views(curated) == NormalizeAll(lex, raw, tags) && flagged == Flagged(lex, raw)
    {
      hide Normalized, WellFormed, Views, NormalizeAll, Flagged;
      var normalized: seq<CuratedRecord> := [];
      NothingToNormalize(lex, raw, tags);
      for n := 0 to |raw|
        invariant Distinct(normalized) && fresh(normalized)
        invariant Views(normalized) == NormalizeAll(lex, raw[..n], tags) && flagged == Flagged(lex, raw[..n])
      {
        NormalizeSnoc(lex, raw, tags, n);
        var record := raw[n];
        if WellFormed(lex, record) {
          ghost var before := Views(normalized);
          var c := new CuratedRecord(Normalized(lex, n, record, TagsFor(tags, record.id)));
          normalized := normalized + [c];
          assert Views(normalized) == before + [c.View()];
        } else {
          flagged := flagged + [if record.id == [] then "<no-id>" else record.id];
        }
      }
      curated := normalized;
      assert raw[..|raw|] == raw;
    }

    /** `dedup_within_tiers` over the curated records. */
    method PhaseDedup(policy: Policy)
      requires Distinct(curated)
      modifies this`curated, this`merges, curated
      ensures DedupWithinTiers(policy, old(Views(curated))) == State(Views(curated), merges)
      ensures Distinct(curated) && forall r :: r in curated ==> r in old(curated)
    {
      hide DedupRecords, OfTier, TiersOf, DedupTiers, Views;
      ghost var input := Views(curated);
      var tiers := SortedTiers(curated);
      var survivors: seq<CuratedRecord>, found: seq<Merge> := [], [];
      NoTiers(policy, input, tiers);
      for n := 0 to |tiers|
        modifies curated
        invariant Distinct(survivors)
        invariant forall r :: r in survivors ==> r in curated && r.tier in tiers[..n]
        invariant forall i :: 0 <= i < |curated| && curated[i].tier !in tiers[..n] ==> curated[i].View() == input[i]
        invariant DedupTiers(policy, input, tiers[..n]) == State(Views(survivors), found)
      {
        assert tiers[..n + 1] == tiers[..n] + [tiers[n]];
        assert tiers[n] !in tiers[..n] by { TiersDiffer(input, n); }
        LastTier(policy, input, tiers[..n], tiers[n]);
        survivors, found := DedupOneTier(policy, curated, input, tiers[n], survivors, found);
      }
      assert tiers[..|tiers|] == tiers;
      curated, merges := survivors, found;
    }

    /** C6: the calls the server sees are exactly the promotable records, in order, and
        each record's status is its own call's answer. */
    method PhaseTierPlacement(server: CorpusServer)
      requires Distinct(curated)
      modifies server, curated`promotionStatus
      ensures Views(curated) == old(Views(curated))
      ensures server.calls == old(server.calls) + Selected(Views(curated))
      ensures forall i :: 0 <= i < |curated| ==>
                curated[i].promotionStatus ==
                StatusOf(server.answer, old(|server.calls|), Views(curated), i)
    {
      hide Views, Selected, PlacementStatus, StatusOf;
      ghost var views, before := Views(curated), server.calls;
      NothingSelected(views);
      for n := 0 to |curated|
        modifies server, curated`promotionStatus
        invariant server.calls == before + Selected(views[..n])
        invariant forall i :: 0 <= i < |curated| ==> curated[i].View() == views[i]
        invariant forall i :: 0 <= i < n ==> curated[i].promotionStatus == StatusOf(server.answer, |before|, views, i)
      {
        SelectedSnoc(views, n);
        StatusIs(server.answer, |before|, views, n);
        curated[n].Place(server);
      }
      assert views[..|curated|] == views;
      assert Views(curated) == views;
    }

    /** The phases in their fixed order, up to tier placement; `raised` when intake's
        exception leaves the run. A failed session or version check, such an exception or a
        dry run curates nothing and calls nothing. */
    method Run(session: bool, version: bool, dryRun: bool, intake: Option<seq<Raw>>, lex: Lexicon, policy: Policy,
               server: CorpusServer)
      returns (raised: bool)
      requires raw == [] && tags == map[] && curated == [] && flagged == []
      modifies this, server
      ensures raised <==> session && version && !dryRun && intake.None?
      ensures !session || !version || dryRun || raised ==>
                raw == [] && curated == [] && server.calls == old(server.calls)
      ensures session && version && !dryRun && intake.Some? ==>
                && raw == intake.value && flagged == Flagged(lex, intake.value)
                && Views(curated) == Curated(lex, policy, intake.value)
                && server.calls == old(server.calls) + Selected(Curated(lex, policy, intake.value))
    {
      hide Curated, DedupTiers, DedupWithinTiers, NormalizeAll, TagAll, Selected, Views, Flagged, TiersOf, StatusOf,
           Distinct;
      if !session || !version || dryRun { return false; }
      if intake.None? { return true; }
      raw := intake.value;
      PhaseTag(lex);
      PhaseNormalize(lex);
      ghost var made := curated;
      PhaseDedup(policy);
      assert forall i :: 0 <= i < |curated| ==> curated[i] in curated && curated[i] in made;
      CuratedIs(lex, policy, intake.value);
      PhaseTierPlacement(server);
      raised := false;
    }
  }

  lemma NothingToNormalize(lex: Lexicon, raw: seq<Raw>, tags: Tags)
    ensures NormalizeAll(lex, raw[..0], tags) == [] && Flagged(lex, raw[..0]) == []
  {
  }

  lemma NormalizeSnoc(lex: Lexicon, raw: seq<Raw>, tags: Tags, n: nat)
    requires n < |raw|
    ensures NormalizeAll(lex, raw[..n + 1], tags) == NormalizeAll(lex, raw[..n], tags) +
              if WellFormed(lex, raw[n]) then [Normalized(lex, n, raw[n], TagsFor(tags, raw[n].id))] else []
    ensures Flagged(lex, raw[..n + 1]) == Flagged(lex, raw[..n]) +
              if WellFormed(lex, raw[n]) then [] else [if raw[n].id == [] then "<no-id>" else raw[n].id]
  {
    hide Normalized, WellFormed;
    assert raw[..n + 1][..n] == raw[..n];
  }

  lemma CuratedIs(lex: Lexicon, policy: Policy, raw: seq<Raw>)
    ensures Curated(lex, policy, raw) == DedupWithinTiers(policy, NormalizeAll(lex, raw, TagAll(lex, raw))).survivors
  {
  }

  lemma NoTiers(policy: Policy, rs: seq<Record>, tiers: seq<string>)
    ensures DedupTiers(policy, rs, tiers[..0]) == State([], [])
  {
  }

  /** The records for which the promotion call is made. */
  function Selected(rs: seq<Record>): (r: seq<Record>)
    ensures forall s :: s in r <==> s in rs && Promotable(s)
  {
    if rs == [] then []
    else Selected(rs[..|rs| - 1]) + if Promotable(rs[|rs| - 1]) then [rs[|rs| - 1]] else []
  }

  lemma NothingSelected(rs: seq<Record>)
    ensures Selected(rs[..0]) == []
  {
  }

  lemma SelectedSnoc(rs: seq<Record>, n: nat)
    requires n < |rs|
    ensures Selected(rs[..n + 1]) == Selected(rs[..n]) + if Promotable(rs[n]) then [rs[n]] else []
  {
    assert rs[..n + 1][..n] == rs[..n];
  }

  function PlacementStatus(answer: int, s: Record): string {
    if s.tier == "corpus" then "n/a-already-corpus"
    else if s.tags != [PUBLIC_SAFE] then "refused-sensitive"
    else if answer == 200 then "promoted"
    else if answer == 403 then "denied-scope"
    else "promotion-error"
  }

  /** What each status says: already in the corpus; held back for its tags; and otherwise the
      server's answer, 200, 403 or anything else. */
  lemma PlacementIff(answer: int, s: Record)
    ensures var status, corpus, held := PlacementStatus(answer, s), s.tier == "corpus", s.tags != ["public-safe"];
            && (status == "n/a-already-corpus" <==> corpus)
            && (status == "refused-sensitive" <==> !corpus && held)
            && (status == "promoted" <==> !corpus && !held && answer == 200)
            && (status == "denied-scope" <==> !corpus && !held && answer == 403)
            && (status == "promotion-error" <==> !corpus && !held && answer != 200 && answer != 403)
  {
    var a, b, c, d, e := "n/a-already-corpus", "refused-sensitive", "promoted", "denied-scope", "promotion-error";
    assert |a| == 18 && |b| == 17 && |c| == 8 && |d| == 12 && |e| == 15;
  }

  /** Record `i`'s status: as many calls were made before its own as promotable records
      stand before it. */
  function StatusOf(answer: (nat, Record) -> int, first: nat, views: seq<Record>, i: nat): string
    requires i < |views|
  {
    PlacementStatus(answer(first + |Selected(views[..i])|, views[i]), views[i])
  }

  lemma StatusIs(answer: (nat, Record) -> int, first: nat, views: seq<Record>, i: nat)
    requires i < |views|
    ensures StatusOf(answer, first, views, i) ==
            PlacementStatus(answer(first + |Selected(views[..i])|, views[i]), views[i])
  {
  }

  /** `sorted(by_tier)`. */
  method SortedTiers(rs: seq<CuratedRecord>) returns (tiers: seq<string>)
    ensures tiers == TiersOf(Views(rs))
  {
    var all: seq<string> := [];
    for n := 0 to |rs|
      invariant |all| == n && forall i :: 0 <= i < n ==> all[i] == rs[i].tier
    {
      all := all + [rs[n].tier];
    }
    ghost var views := Views(rs);
    assert all == seq(|views|, i requires 0 <= i < |views| => views[i].tier);
    tiers := SortedSet(all);
  }

  lemma TiersDiffer(rs: seq<Record>, n: nat)
    requires n < |TiersOf(rs)|
    ensures TiersOf(rs)[n] !in TiersOf(rs)[..n]
  {
    hide Less, SortedSet;
    LessTotal(TiersOf(rs)[n], TiersOf(rs)[n]);
  }

  /** One entry of `by_tier`, in input order. */
  method RecordsOfTier(rs: seq<CuratedRecord>, tier: string, ghost input: seq<Record>)
    returns (part: seq<CuratedRecord>)
    requires Distinct(rs) && |input| == |rs|
    requires forall i :: 0 <= i < |rs| ==> rs[i].tier == input[i].tier
    requires forall i :: 0 <= i < |rs| && rs[i].tier == tier ==> rs[i].View() == input[i]
    ensures Views(part) == OfTier(input, tier)
    ensures Distinct(part) && forall r :: r in part ==> r in rs && r.tier == tier
  {
    hide Views, OfTier;
    part := [];
    NobodyOfTier(input, tier);
    for n := 0 to |rs|
      invariant Views(part) == OfTier(input[..n], tier)
      invariant Distinct(part)
      invariant forall r :: r in part ==> r in rs[..n] && r.tier == tier
    {
      OfTierSnoc(input[..n], input[n], tier);
      assert input[..n + 1] == input[..n] + [input[n]];
      assert rs[n] !in rs[..n];
      if rs[n].tier == tier {
        ghost var before := Views(part);
        part := part + [rs[n]];
        assert Views(part) == before + [rs[n].View()];
      }
    }
    assert input[..|rs|] == input;
  }

  lemma NobodyOfTier(rs: seq<Record>, tier: string)
    ensures OfTier(rs[..0], tier) == []
  {
  }

  lemma {:induction false} OfTierSnoc(rs: seq<Record>, r: Record, tier: string)
    ensures OfTier(rs + [r], tier) == OfTier(rs, tier) + if r.tier == tier then [r] else []
  {
    if rs == [] {
      assert [] + [r] == [r] && [r][1..] == [];
    } else {
      OfTierSnoc(rs[1..], r, tier);
      assert (rs + [r])[1..] == rs[1..] + [r];
    }
  }

  lemma {:induction false} LastTier(policy: Policy, rs: seq<Record>, tiers: seq<string>, tier: string)
    ensures var st, one := DedupTiers(policy, rs, tiers), DedupRecords(policy, OfTier(rs, tier));
            DedupTiers(policy, rs, tiers + [tier]) == State(st.survivors + one.survivors, st.merges + one.merges)
  {
    hide DedupRecords, OfTier;
    if tiers == [] {
      assert [] + [tier] == [tier] && [tier][1..] == [];
    } else {
      LastTier(policy, rs, tiers[1..], tier);
      assert (tiers + [tier])[1..] == tiers[1..] + [tier];
    }
  }
}

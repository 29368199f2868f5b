/** When the dedup of scripts/curator/runner.py merges and when it does not, in terms of ids
    and token sets alone. */
module DedupClasses {
  import opened Lists
  import opened Dedup

  // ---------------------------------------------------------- what collides

  /** The size of the intersection over that of the union; two empty sets are equal. */
  ghost function Quotient(a: set<string>, b: set<string>): real {
    if a + b == {} then 1.0 else |a * b| as real / |a + b| as real
  }

  lemma JaccardIs(a: set<string>, b: set<string>)
    ensures Jaccard(a, b) == Quotient(a, b)
  {
    if a == {} || b == {} {
      assert a * b == {};
      if a + b != {} { Zero(|a + b|); }
    } else {
      var x :| x in a;
      assert x in a + b;
    }
  }

  lemma Zero(n: nat)
    requires n > 0
    ensures 0.0 / n as real == 0.0
  {
  }

  /** The same document id, or token sets as similar as the threshold asks. */
  ghost predicate Alike(policy: Policy, s: Record, r: Record) {
    s.id == r.id || Quotient(policy.signature(r.text), policy.signature(s.text)) >= policy.threshold
  }

  lemma CollidesIff(policy: Policy, s: Record, r: Record)
    ensures Collides(policy, s, r) <==> Alike(policy, s, r)
    ensures Collides(policy, s, r) ==>
            Collision(policy, s, r) ==
            if s.id == r.id then 1.0 else Quotient(policy.signature(r.text), policy.signature(s.text))
  {
    JaccardIs(policy.signature(r.text), policy.signature(s.text));
    hide Jaccard;
  }

  /** What joining means for one record: the first survivor that is alike, or none. */
  lemma FirstMatchIff(policy: Policy, survivors: seq<Record>, r: Record)
    ensures var k := FirstMatch(policy, survivors, r);
            && (k == |survivors| <==> forall i :: 0 <= i < |survivors| ==> !Alike(policy, survivors[i], r))
            && (k < |survivors| ==>
                  Alike(policy, survivors[k], r) && forall i :: 0 <= i < k ==> !Alike(policy, survivors[i], r))
  {
    hide Collides, Alike;
    forall i | 0 <= i < |survivors|
      ensures Collides(policy, survivors[i], r) <==> Alike(policy, survivors[i], r)
    {
      CollidesIff(policy, survivors[i], r);
    }
  }

  // ---------------------------------------------------------- which class an input joins

  lemma {:induction false} HomePrefix(policy: Policy, rs: seq<Record>, j: nat)
    requires j < |rs|
    ensures Home(policy, rs)[..j] == Home(policy, rs[..j])
    ensures Home(policy, rs)[j] == FirstMatch(policy, DedupRecords(policy, rs[..j]).survivors, rs[j])
    decreases |rs|
  {
    hide Home, DedupRecords, FirstMatch, Step;
    var n := |rs| - 1;
    UnfoldLast(policy, rs);
    if j < n {
      HomePrefix(policy, rs[..n], j);
      assert rs[..n][..j] == rs[..j];
    }
  }

  /** Input `j` opens a new class if and only if no survivor of the inputs before it is
      alike; otherwise it joins the class of the first one that is. */
  lemma JoinsFirstAlike(policy: Policy, rs: seq<Record>, j: nat)
    requires j < |rs|
    ensures var home, survivors := Home(policy, rs), DedupRecords(policy, rs[..j]).survivors;
            && ((forall i :: 0 <= i < j ==> home[i] != home[j]) <==>
                  forall k :: 0 <= k < |survivors| ==> !Alike(policy, survivors[k], rs[j]))
            && ((exists k :: 0 <= k < |survivors| && Alike(policy, survivors[k], rs[j])) ==>
                  && home[j] < |survivors| && Alike(policy, survivors[home[j]], rs[j])
                  && forall i :: 0 <= i < home[j] ==> !Alike(policy, survivors[i], rs[j]))
  {
    HomePrefix(policy, rs, j);
    var survivors := DedupRecords(policy, rs[..j]).survivors;
    FirstMatchIff(policy, survivors, rs[j]);
    var winners := EverySurvivorRepresents(policy, rs[..j]);
    ClassesAreUsed(rs[..j], Home(policy, rs[..j]), survivors, winners);
    hide Home, DedupRecords, FirstMatch, Accounted, Alike;
    var home := Home(policy, rs);
    assert forall i :: 0 <= i < j ==> home[i] == home[..j][i];
    if home[j] < |survivors| {
      assert Used(home[..j], home[j]);
      var i: int :| In(home[..j], home[j], i);
      assert home[i] == home[j];
    }
  }

  ghost predicate Used(home: seq<nat>, k: nat) { exists i :: In(home, k, i) }

  lemma ClassesAreUsed(rs: seq<Record>, home: seq<nat>, survivors: seq<Record>, winners: seq<int>)
    requires Accounted(rs, home, survivors, winners)
    ensures forall k :: 0 <= k < |survivors| ==> Used(home, k)
    ensures forall i :: 0 <= i < |home| ==> home[i] < |survivors|
  {
    forall k | 0 <= k < |survivors| ensures Used(home, k) {
      assert Represents(rs, home, k, winners[k], survivors[k]);
      assert In(home, k, winners[k]);
    }
  }

  // ---------------------------------------------------------------- the events

  /** The event of input `j`: none when it opens a class; otherwise the ids of the newer and
      the older of the two, 1.0 for equal ids and else the quotient, which reaches the
      threshold, and the tier. */
  ghost predicate EventOf(policy: Policy, s: Record, r: Record, m: Merge) {
    && (if Less(r.createdAt, s.createdAt) then m.kept == s.id && m.superseded == r.id && m.tier == s.tier
        else m.kept == r.id && m.superseded == s.id && m.tier == r.tier)
    && (if s.id == r.id then m.similarity == 1.0
        else m.similarity == Quotient(policy.signature(r.text), policy.signature(s.text)) >= policy.threshold)
  }

  lemma EventIs(policy: Policy, rs: seq<Record>, j: nat)
    requires j < |rs|
    ensures var was, now := DedupRecords(policy, rs[..j]), DedupRecords(policy, rs[..j + 1]);
            var home := Home(policy, rs);
            && (home[j] == |was.survivors| ==> now.merges == was.merges && now.survivors == was.survivors + [rs[j]])
            && (home[j] < |was.survivors| ==>
                  && |now.merges| == |was.merges| + 1 && now.merges[..|was.merges|] == was.merges
                  && EventOf(policy, was.survivors[home[j]], rs[j], now.merges[|was.merges|])
                  && |now.survivors| == |was.survivors|)
  {
    HomePrefix(policy, rs, j);
    var before := rs[..j + 1];
    assert before[..j] == rs[..j] && before[j] == rs[j];
    UnfoldLast(policy, before);
    var was := DedupRecords(policy, rs[..j]);
    hide Home, DedupRecords;
    StepEvent(policy, was, rs[j]);
  }

  lemma StepEvent(policy: Policy, st: State, r: Record)
    ensures var k, st' := FirstMatch(policy, st.survivors, r), Step(policy, st, r);
            && (k == |st.survivors| ==> st'.merges == st.merges && st'.survivors == st.survivors + [r])
            && (k < |st.survivors| ==>
                  && |st'.merges| == |st.merges| + 1 && st'.merges[..|st.merges|] == st.merges
                  && EventOf(policy, st.survivors[k], r, st'.merges[|st.merges|])
                  && |st'.survivors| == |st.survivors|)
  {
    var k := FirstMatch(policy, st.survivors, r);
    if k < |st.survivors| {
      CollidesIff(policy, st.survivors[k], r);
      hide FirstMatch, Collides, Collision, Quotient, Less, SortedSet, MergeLinks, MergeTags;
    }
  }

  // ------------------------------------------------------------- two corollaries

  /** Records of one signature leave a single survivor, for every threshold up to 1. */
  lemma {:induction false} EqualTextsMerge(policy: Policy, rs: seq<Record>)
    requires rs != [] && policy.threshold <= 1.0
    requires forall i :: 0 <= i < |rs| ==> policy.signature(rs[i].text) == policy.signature(rs[0].text)
    ensures var survivors := DedupRecords(policy, rs).survivors;
            |survivors| == 1 && policy.signature(survivors[0].text) == policy.signature(rs[0].text)
  {
    var n := |rs| - 1;
    UnfoldLast(policy, rs);
    if n == 0 {
      assert rs[..0] == [];
    } else {
      EqualTextsMerge(policy, rs[..n]);
      var s, r := DedupRecords(policy, rs[..n]).survivors[0], rs[n];
      var sign := policy.signature(r.text);
      assert sign * sign == sign && sign + sign == sign;
      JaccardFacts(sign, sign);
      hide DedupRecords, Home, Jaccard, Less, SortedSet, MergeLinks, MergeTags;
    }
  }

  /** Records with distinct ids, no two of which reach the threshold, are all kept. */
  lemma {:induction false} DistinctTextsStay(policy: Policy, rs: seq<Record>)
    requires forall i, j :: 0 <= i < j < |rs| ==> !Alike(policy, rs[i], rs[j])
    ensures DedupRecords(policy, rs) == State(rs, [])
  {
    if rs != [] {
      hide Alike, FirstMatch;
      var n := |rs| - 1;
      DistinctTextsStay(policy, rs[..n]);
      FirstMatchIff(policy, rs[..n], rs[n]);
      assert rs == rs[..n] + [rs[n]];
    }
  }
}

/** Substring search, as Python's `str.find`, and the two facts about it that every
    text transformation in this project rests on: what surrounds a separator the needle
    cannot contain does not interact, and only the text up to the match matters. */
module Text {

  /** True iff `needle` occurs in `text` starting at `at`. */
  predicate OccursAt(needle: string, text: string, at: int) {
    0 <= at && at + |needle| <= |text| && text[at..at + |needle|] == needle
  }

  ghost predicate Occurs(needle: string, text: string) {
    exists at :: OccursAt(needle, text, at)
  }

  /** `text.find(needle, from)`: the first occurrence at or after `from`, or -1. */
  function Find(text: string, needle: string, from: nat): (r: int)
    ensures r == -1 ==> forall p :: from <= p ==> !OccursAt(needle, text, p)
    ensures r != -1 ==> from <= r <= r + |needle| <= |text| && OccursAt(needle, text, r)
    ensures r != -1 ==> forall p :: from <= p < r ==> !OccursAt(needle, text, p)
    decreases |text| - from
  {
    if from + |needle| > |text| then -1
    else if OccursAt(needle, text, from) then from
    else Find(text, needle, from + 1)
  }

  predicate StartsWith(text: string, prefix: string) {
    |prefix| <= |text| && text[..|prefix|] == prefix
  }

  predicate EndsWith(text: string, suffix: string) {
    |suffix| <= |text| && text[|text| - |suffix|..] == suffix
  }

  predicate AllIn(text: string, chars: string) {
    forall i :: 0 <= i < |text| ==> text[i] in chars
  }

  /** Occurrences shift with a prefix. */
  lemma OccursAfterPrefix(needle: string, a: string, b: string, p: int)
    ensures OccursAt(needle, b, p) ==> OccursAt(needle, a + b, |a| + p)
    ensures p >= 0 && OccursAt(needle, a + b, |a| + p) ==> OccursAt(needle, b, p)
  {
    if p >= 0 && p + |needle| <= |b| {
      assert (a + b)[|a| + p..|a| + p + |needle|] == b[p..p + |needle|];
    }
  }

  /** Occurrences that end inside a prefix do not depend on what follows it. */
  lemma OccursInPrefix(needle: string, a: string, b: string, p: int)
    requires p + |needle| <= |a|
    ensures OccursAt(needle, a + b, p) <==> OccursAt(needle, a, p)
  {
    if p >= 0 {
      assert (a + b)[p..p + |needle|] == a[p..p + |needle|];
    }
  }

  /** A match is decided by the text up to its end. */
  lemma FindIsLocal(text: string, other: string, needle: string, from: nat, k: nat)
    requires Find(text, needle, from) == k
    requires k + |needle| <= |other| && other[..k + |needle|] == text[..k + |needle|]
    ensures Find(other, needle, from) == k
  {
    hide Find, OccursAt;
    var e := k + |needle|;
    OccursIn(text, other, needle, k, e);
    forall p | from <= p < k ensures !OccursAt(needle, other, p) {
      OccursIn(text, other, needle, p, e);
    }
    FirstIs(other, needle, from, k);
  }

  /** Texts that agree up to `e` hold the same matches that end there. */
  lemma OccursIn(text: string, other: string, needle: string, p: nat, e: nat)
    requires p + |needle| <= e <= |text| && e <= |other| && other[..e] == text[..e]
    ensures OccursAt(needle, text, p) <==> OccursAt(needle, other, p)
  {
    assert text[p..p + |needle|] == text[..e][p..p + |needle|] == other[p..p + |needle|];
  }

  lemma FirstIs(text: string, needle: string, from: nat, k: nat)
    requires from <= k && OccursAt(needle, text, k) && forall p :: from <= p < k ==> !OccursAt(needle, text, p)
    ensures Find(text, needle, from) == k
  {
    hide OccursAt;
  }

  /** Searching after a prefix in which no match starts moves the answer. */
  lemma FindAfterPrefix(p: string, r: string, needle: string, from: nat, fromR: nat)
    requires from == |p| + fromR || (from == 0 == fromR && forall i :: 0 <= i < |p| ==> !OccursAt(needle, p + r, i))
    ensures Find(p + r, needle, from) == if Find(r, needle, fromR) == -1 then -1 else |p| + Find(r, needle, fromR)
  {
    forall i: nat ensures OccursAt(needle, p + r, |p| + i) <==> OccursAt(needle, r, i) {
      OccursAfterPrefix(needle, p, r, i);
    }
    hide OccursAt;
    var k, k' := Find(r, needle, fromR), Find(p + r, needle, from);
    if k' != -1 { assert OccursAt(needle, r, k' - |p|); }
    if k != -1 {
      assert OccursAt(needle, p + r, |p| + k);
      forall i | from <= i < |p| + k ensures !OccursAt(needle, p + r, i) {
        if i >= |p| { assert !OccursAt(needle, r, i - |p|); }
      }
    }
  }

  /** A needle cannot straddle a separator made of characters it does not contain. */
  lemma OccursAcross(needle: string, a: string, sep: string, b: string)
    requires needle != [] && sep != []
    requires forall i :: 0 <= i < |sep| ==> sep[i] !in needle
    ensures Occurs(needle, a + sep + b) <==> Occurs(needle, a) || Occurs(needle, b)
    ensures forall p :: OccursAt(needle, a + sep + b, p) ==>
                          p + |needle| <= |a| || |a| + |sep| <= p
  {
    var t := a + sep + b;
    forall p | OccursAt(needle, t, p)
      ensures p + |needle| <= |a| || |a| + |sep| <= p
      ensures OccursAt(needle, a, p) || OccursAt(needle, b, p - |a| - |sep|)
    {
      assert forall i :: p <= i < p + |needle| ==> t[i] == needle[i - p];
      assert forall i :: |a| <= i < |a| + |sep| ==> t[i] == sep[i - |a|];
      var i := if p < |a| then |a| else p;
      assert p <= i < p + |needle| ==> t[i] in needle;
      assert |a| <= i < |a| + |sep| ==> t[i] !in needle;
      if p + |needle| <= |a| {
        assert t == a + (sep + b);
        OccursInPrefix(needle, a, sep + b, p);
      } else {
        OccursAfterPrefix(needle, a + sep, b, p - |a| - |sep|);
      }
    }
    forall p | OccursAt(needle, a, p) ensures OccursAt(needle, t, p) {
      assert t == a + (sep + b);
      OccursInPrefix(needle, a, sep + b, p);
    }
    forall p | OccursAt(needle, b, p) ensures OccursAt(needle, t, |a + sep| + p) {
      OccursAfterPrefix(needle, a + sep, b, p);
    }
  }

  /** `str.isspace` of one character: what `str.strip` removes. */
  predicate IsSpace(c: char) {
    var n := c as int;
    9 <= n <= 13 || 28 <= n <= 32 || n == 0x85 || n == 0xA0 || n == 0x1680 || 0x2000 <= n <= 0x200A
    || n == 0x2028 || n == 0x2029 || n == 0x202F || n == 0x205F || n == 0x3000
  }

  /** `not text.strip()` */
  predicate Blank(text: string) { forall i :: 0 <= i < |text| ==> IsSpace(text[i]) }

  /** `str.lower` on the ASCII letters. */
  function Lower(s: string): string {
    seq(|s|, i requires 0 <= i < |s| => if 'A' <= s[i] <= 'Z' then s[i] - 'A' + 'a' else s[i])
  }
}

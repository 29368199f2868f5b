/** scripts/deploy/build_record.py and the logging half of scripts/deploy/memory.py: a record
    that is uploaded, patched with the result of its own upload, and uploaded again. */
module BuildRecord {
  import opened Text
  import opened Lists
  import opened Dicts

  // ------------------------------------------------------ front-matter splitting

  const CLOSING := "\n---"

  datatype Front = Front(block: string, body: string)

  function LStrip(s: string): string { if s != [] && s[0] == '\n' then LStrip(s[1..]) else s }
  function RStrip(s: string): string { if s != [] && s[|s| - 1] == '\n' then RStrip(s[..|s| - 1]) else s }

  predicate Newlines(s: string) { forall i :: 0 <= i < |s| ==> s[i] == '\n' }

  /** Stripping removes exactly the newlines at that end. */
  lemma {:induction false} LStripIs(s: string) returns (gone: string)
    ensures Newlines(gone) && s == gone + LStrip(s)
    ensures LStrip(s) != [] ==> LStrip(s)[0] != '\n'
  {
    gone := "";
    if s != [] && s[0] == '\n' {
      var more := LStripIs(s[1..]);
      gone := "\n" + more;
      OneMoreNewline(more);
      Associates("\n", more, LStrip(s));
      assert s == "\n" + s[1..];
    }
  }

  lemma OneMoreNewline(gone: string)
    requires Newlines(gone)
    ensures Newlines("\n" + gone) && Newlines(gone + "\n")
  {
  }

  lemma {:induction false} RStripIs(s: string) returns (gone: string)
    ensures Newlines(gone) && s == RStrip(s) + gone
    ensures RStrip(s) != [] ==> RStrip(s)[|RStrip(s)| - 1] != '\n'
  {
    gone := "";
    var n := |s| - 1;
    if s != [] && s[n] == '\n' {
      var more := RStripIs(s[..n]);
      gone := more + "\n";
      OneMoreNewline(more);
      Associates(RStrip(s), more, "\n");
      assert s == s[..n] + "\n";
    }
  }

  function Join(block: string, body: string): string { "---\n" + (block + CLOSING + body) }

  /** `_split_front_matter` */
  function SplitFrontMatter(text: string): Option<Front> {
    var stripped := LStrip(text);
    if !StartsWith(stripped, "---\n") then None
    else
      var rest := stripped[4..];
      var end := Find(rest, CLOSING, 0);
      if end == -1 then None else Some(Front(rest[..end], rest[end + 4..]))
  }

  /** Exactly what the splitter accepts and returns: the first closing delimiter ends the
      block. */
  lemma SplitIff(text: string, block: string, body: string)
    ensures SplitFrontMatter(text) == Some(Front(block, body))
       <==> LStrip(text) == "---\n" + (block + "\n---" + body) && !Occurs("\n---", block)
  {
    hide LStrip, Find, OccursAt, Occurs;
    var stripped, rest := LStrip(text), block + CLOSING + body;
    assert |rest| >= |block| + 4 && rest[..|block|] == block && rest[|block| + 4..] == body;
    FirstClosing(block, body);
    if stripped == Join(block, body) {
      assert StartsWith(stripped, "---\n") && stripped[4..] == rest;
      if SplitFrontMatter(text) == Some(Front(block, body)) {
        assert Find(rest, CLOSING, 0) == |block|;
      }
    } else if StartsWith(stripped, "---\n") {
      var found := Find(stripped[4..], CLOSING, 0);
      OccursSplits(stripped[4..], found);
      assert found != -1 ==> stripped[4..] == stripped[4..][..found] + CLOSING + stripped[4..][found + 4..];
      assert stripped == "---\n" + stripped[4..];
    }
  }

  lemma OccursSplits(text: string, at: int)
    ensures OccursAt(CLOSING, text, at) ==> text == text[..at] + CLOSING + text[at + 4..]
  {
  }

  lemma FirstClosing(block: string, body: string)
    ensures Find(block + CLOSING + body, CLOSING, 0) == |block| <==> !Occurs(CLOSING, block)
  {
    var rest := block + CLOSING + body;
    assert rest == block + (CLOSING + body);
    OccursAfterPrefix(CLOSING, block, CLOSING + body, 0);
    assert OccursAt(CLOSING, CLOSING + body, 0);
    forall p | 0 <= p < |block| ensures OccursAt(CLOSING, rest, p) <==> OccursAt(CLOSING, block, p) {
      if p + 4 <= |block| {
        OccursInPrefix(CLOSING, block, CLOSING + body, p);
      } else {
        assert rest[p..p + 4][|block| - p] == rest[|block|] == '\n';
      }
    }
    hide OccursAt;
    if p :| OccursAt(CLOSING, block, p) { OccursInside(block, p); }
  }

  lemma OccursInside(block: string, p: int)
    requires OccursAt(CLOSING, block, p)
    ensures 0 <= p < |block|
  {
  }

  // ----------------------------------------------------------------- file names

  const OUTCOMES := ["pass", "reject", "stalled", "failed"]
  const INFIX := ".outcome-"

  function EnsureMd(name: string): string { if EndsWith(name, ".md") then name else name + ".md" }

  /** `_tag_outcome`: None is the ValueError. */
  function TagOutcome(leaf: string, outcome: Option<string>): Option<string> {
    if outcome.None? then Some(leaf)
    else if outcome.value !in OUTCOMES then None
    else if Find(leaf, INFIX, 0) != -1 then Some(leaf)
    else Some((if EndsWith(leaf, ".md") then leaf[..|leaf| - 3] else leaf) + INFIX + outcome.value + ".md")
  }

  /** The leaf a record gets is a fixed point of naming it again with the same outcome, and
      once an outcome is in the name no other one is added. */
  lemma NamingIsIdempotent(name: string, outcome: Option<string>, again: Option<string>)
    requires TagOutcome(EnsureMd(name), outcome).Some?
    requires again == outcome || (outcome.Some? && TagOutcome(EnsureMd(name), again).Some?)
    ensures var leaf := TagOutcome(EnsureMd(name), outcome).value;
            EndsWith(leaf, ".md") && EnsureMd(leaf) == leaf && TagOutcome(leaf, again) == Some(leaf)
  {
    var first := EnsureMd(name);
    var leaf := TagOutcome(first, outcome).value;
    if leaf != first {
      var stem := if EndsWith(first, ".md") then first[..|first| - 3] else first;
      assert leaf == stem + (INFIX + (outcome.value + ".md"));
      assert OccursAt(INFIX, INFIX + (outcome.value + ".md"), 0);
      OccursAfterPrefix(INFIX, stem, INFIX + (outcome.value + ".md"), 0);
    }
  }

  /** `r` is what follows the last slash of `key`, or all of it. */
  predicate EndsIn(key: string, r: string) {
    '/' !in r && EndsWith(key, r) && (|r| < |key| ==> key[|key| - |r| - 1] == '/')
  }

  /** What a name becomes: None for an outcome that is not one of the four; otherwise the
      name with one extension, and with the outcome before it unless some outcome is there
      already. */
  lemma LeafIs(base: string, name: string, outcome: Option<string>)
    requires !EndsWith(base, ".md") && (name == base || name == base + ".md")
    ensures var leaf := TagOutcome(EnsureMd(name), outcome);
            && (leaf.None? <==> outcome.Some? && outcome.value !in {"pass", "reject", "stalled", "failed"})
            && (leaf.Some? ==>
                  leaf.value == if outcome.Some? && !Occurs(".outcome-", base + ".md")
                                then base + ".outcome-" + outcome.value + ".md" else base + ".md")
  {
    hide Find, OccursAt;
    var first := base + ".md";
    assert EndsWith(first, ".md") && first[..|first| - 3] == base;
    assert EnsureMd(name) == first by { BareIff(name, first); }
    FindIffOccurs(first);
  }

  lemma FindIffOccurs(text: string)
    ensures Find(text, INFIX, 0) != -1 <==> Occurs(".outcome-", text)
  {
    hide OccursAt;
    if at :| OccursAt(".outcome-", text, at) { Nonnegative(text, at); }
  }

  lemma Nonnegative(text: string, at: int)
    requires OccursAt(".outcome-", text, at)
    ensures at >= 0
  {
  }

  /** `key.rsplit("/", 1)[-1]` */
  function LastSegment(key: string): (r: string)
    ensures EndsIn(key, r)
  {
    if key == [] || key[|key| - 1] == '/' then []
    else
      var front, c := key[..|key| - 1], key[|key| - 1];
      EndsInSnoc(front, LastSegment(front), c);
      assert front + [c] == key;
      LastSegment(front) + [c]
  }

  lemma EndsInSnoc(text: string, r: string, c: char)
    requires EndsIn(text, r) && c != '/'
    ensures EndsIn(text + [c], r + [c])
  {
    assert (text + [c])[|text| - |r|..] == text[|text| - |r|..] + [c];
  }

  /** The server named the upload: its key is the leaf, or a path that ends in it. */
  predicate Names(key: string, leaf: string) { key == leaf || EndsWith(key, "/" + leaf) }

  /** What the second upload is named after: the last segment of the key, or the stamp. */
  function Base(key: string, stamp: string): string { if LastSegment(key) != [] then LastSegment(key) else stamp }

  /** The name the second upload asks for, from the key the first one got. */
  function SecondLeaf(key: string, stamp: string, outcome: Option<string>): Option<string> {
    TagOutcome(EnsureMd(Base(key, stamp)), outcome)
  }

  /** `base` is the file name `full`, with or without its extension. */
  predicate Bare(base: string, full: string) { base == full || (base + ".md" == full && !EndsWith(base, ".md")) }

  function Tag(outcome: string): string { INFIX + outcome + ".md" }

  /** `base` is a name of `leaf`: the leaf itself or the name that its outcome tag was added
      to, each with or without its extension. */
  predicate IsNameOf(base: string, leaf: string, outcome: Option<string>) {
    || Bare(base, leaf)
    || (outcome.Some? && EndsWith(leaf, Tag(outcome.value)) &&
        var untagged := leaf[..|leaf| - |Tag(outcome.value)|] + ".md";
        Find(untagged, INFIX, 0) == -1 && Bare(base, untagged))
  }

  /** The two uploads hit the same object exactly when what the server's key ends in, or the
      stamp when that is nothing, is a name of the first leaf; any key, so any server. */
  lemma SameObjectIff(name: string, outcome: Option<string>, key: string, stamp: string)
    requires TagOutcome(EnsureMd(name), outcome).Some?
    ensures var leaf := TagOutcome(EnsureMd(name), outcome).value;
            SecondLeaf(key, stamp, outcome) == Some(leaf) <==> IsNameOf(Base(key, stamp), leaf, outcome)
  {
    hide Find, LastSegment, TagOutcome, EnsureMd;
    NamingIsIdempotent(name, outcome, outcome);
    var leaf, base := TagOutcome(EnsureMd(name), outcome).value, Base(key, stamp);
    BareIff(base, leaf);
    EnsureMdEnds(base);
    TagIs(EnsureMd(base), outcome);
    TagIs(EnsureMd(name), outcome);
    TagIs(leaf, outcome);
    if outcome.Some? {
      var tag := Tag(outcome.value);
      Retagged(EnsureMd(base), leaf, tag);
      if EndsWith(leaf, tag) { BareIff(base, leaf[..|leaf| - |tag|] + ".md"); }
    }
  }

  lemma EnsureMdEnds(name: string)
    ensures EndsWith(EnsureMd(name), ".md")
  {
  }

  /** What tagging does to a file name. */
  lemma TagIs(leaf: string, outcome: Option<string>)
    ensures outcome.None? ==> TagOutcome(leaf, outcome) == Some(leaf)
    ensures outcome.Some? && TagOutcome(leaf, outcome).Some? ==> outcome.value in OUTCOMES
    ensures outcome.Some? && outcome.value in OUTCOMES && EndsWith(leaf, ".md") ==>
              TagOutcome(leaf, outcome) ==
              Some(if Find(leaf, INFIX, 0) != -1 then leaf else leaf[..|leaf| - 3] + Tag(outcome.value))
  {
    hide Find;
    if outcome.Some? && EndsWith(leaf, ".md") {
      var stem := leaf[..|leaf| - 3];
      assert stem + INFIX + outcome.value + ".md" == stem + Tag(outcome.value);
    }
  }

  lemma BareIff(base: string, full: string)
    requires EndsWith(full, ".md")
    ensures Bare(base, full) <==> EnsureMd(base) == full
  {
  }

  /** A file name of which the tag replaces the extension. */
  lemma Retagged(first: string, leaf: string, tag: string)
    requires EndsWith(first, ".md")
    ensures first[..|first| - 3] + tag == leaf <==>
            EndsWith(leaf, tag) && first == leaf[..|leaf| - |tag|] + ".md"
  {
    var stem := first[..|first| - 3];
    assert first == stem + ".md";
    assert (stem + tag)[|stem|..] == tag && (stem + tag)[..|stem|] == stem;
    if EndsWith(leaf, tag) {
      var front := leaf[..|leaf| - |tag|];
      assert leaf == front + tag && (front + ".md")[..|front|] == front;
    }
  }

  /** On a server that names the upload after its leaf, that is: exactly when the first leaf
      is a single path segment. */
  lemma NamedObjectIff(name: string, outcome: Option<string>, key: string, stamp: string)
    requires TagOutcome(EnsureMd(name), outcome).Some?
    requires Names(key, TagOutcome(EnsureMd(name), outcome).value)
    ensures var leaf := TagOutcome(EnsureMd(name), outcome).value;
            SecondLeaf(key, stamp, outcome) == Some(leaf) <==> '/' !in leaf
  {
    var leaf := TagOutcome(EnsureMd(name), outcome).value;
    NamingIsIdempotent(name, outcome, outcome);
    LastOfNamed(key, leaf);
    var seg := LastSegment(key);
    if '/' in leaf { NoSlashAdded(seg, outcome); }
  }

  lemma LastOfNamed(key: string, leaf: string)
    requires Names(key, leaf) && EndsWith(leaf, ".md")
    ensures LastSegment(key) != []
    ensures '/' !in leaf ==> LastSegment(key) == leaf
  {
    assert key[|key| - 1] == leaf[|leaf| - 1] == ".md"[2];
    if '/' !in leaf {
      var a := key[..|key| - |leaf|];
      assert key == a + leaf && EndsWith("/" + leaf, leaf);
      assert a != [] ==> a[|a| - 1] == ("/" + leaf)[0];
      LastAfterSlash(a, leaf);
    }
  }

  lemma {:induction false} LastAfterSlash(a: string, b: string)
    requires '/' !in b && (a == [] || a[|a| - 1] == '/')
    ensures LastSegment(a + b) == b
  {
    if b == [] {
      assert a + b == a;
    } else {
      var n := |b| - 1;
      assert (a + b)[..|a + b| - 1] == a + b[..n] && b == b[..n] + [b[n]];
      assert '/' !in b[..n] && b[n] in b;
      LastAfterSlash(a, b[..n]);
    }
  }

  lemma NoSlashAdded(seg: string, outcome: Option<string>)
    requires '/' !in seg && TagOutcome(EnsureMd(seg), outcome).Some?
    ensures '/' !in TagOutcome(EnsureMd(seg), outcome).value
  {
    var leaf := EnsureMd(seg);
    assert '/' !in leaf && '/' !in leaf[..|leaf| - 3];
  }

  // --------------------------------------------------------------- front matter

  /** A YAML value, as far as the record code looks at it. */
  datatype Value = Nil | Text(s: string) | Collection(size: nat, shown: string) | Scalar(shown: string)

  type Field = (string, Value)

  type Mapping = Dict<Value>

  // -------------------------------------------------------------- the YAML pair

  datatype Loaded = Failed | NotAMapping | Loaded(m: Mapping)

  datatype Yaml = Yaml(load: string -> Loaded, dump: Mapping -> string)

  /** What the record code relies on: a dump, stripped of its last newline, loads back and
      holds no closing delimiter; a loaded mapping has each name once. */
  ghost predicate Faithful(y: Yaml) {
    && (forall m :: UniqueKeys(m) ==> y.load(RStrip(y.dump(m))) == Loaded(m) && !Occurs(CLOSING, RStrip(y.dump(m))))
    && (forall s :: y.load(s).Loaded? ==> UniqueKeys(y.load(s).m))
  }

  /** `_extract_front_matter` */
  function Extract(y: Yaml, text: string): Option<Mapping> {
    match SplitFrontMatter(text)
    case None => None
    case Some(front) => if y.load(front.block).Loaded? then Some(y.load(front.block).m) else None
  }

  const REQUIRED := ["spec_ref", "spec_hash", "recall_evidence", "log_key", "index_status", "branch", "commit", "gates"]
  const SELF_REFERENTIAL := {"log_key", "index_status"}

  /** `patch_front_matter_fields` */
  function Patch(y: Yaml, text: string, updates: seq<Field>): Result<string, seq<string>> {
    match Extract(y, text)
    case None => Err(REQUIRED)
    case Some(m) => Ok(Join(RStrip(y.dump(Update(m, updates))), SplitFrontMatter(text).value.body))
  }

  /** A patched record splits back to the same body and to the updated fields; only a record
      without front matter cannot be patched. */
  lemma PatchIs(y: Yaml, text: string, updates: seq<Field>)
    requires Faithful(y)
    ensures Patch(y, text, updates).Ok? <==> Extract(y, text).Some?
    ensures Patch(y, text, updates).Ok? ==>
              var patched := Patch(y, text, updates).value;
              && SplitFrontMatter(patched).Some?
              && SplitFrontMatter(patched).value.body == SplitFrontMatter(text).value.body
              && Extract(y, patched) == Some(Update(Extract(y, text).value, updates))
  {
    if Extract(y, text).Some? {
      var m, body := Extract(y, text).value, SplitFrontMatter(text).value.body;
      hide Update, RStrip, Occurs, Find;
      UpdateIs(m, updates);
      var block := RStrip(y.dump(Update(m, updates)));
      SplitIff(Join(block, body), block, body);
      assert Join(block, body)[0] == '-';
    }
  }

  lemma UpdateTwo(m: Mapping, a: Field, b: Field)
    ensures Update(m, [a, b]) == Set(Set(m, a), b)
  {
    hide Set;
    assert [a, b][1..] == [b] && [b][1..] == [];
    assert Update(Set(m, a), [b]) == Update(Set(Set(m, a), b), []);
  }

  /** Patching the same two fields again is as if only the last patch had been made. */
  lemma PatchLastWins(y: Yaml, text: string, a: Field, b: Field, a': Field, b': Field)
    requires Faithful(y) && a.0 == a'.0 && b.0 == b'.0 && a.0 != b.0
    requires Patch(y, text, [a, b]).Ok?
    ensures Patch(y, Patch(y, text, [a, b]).value, [a', b']) == Patch(y, text, [a', b'])
  {
    PatchIs(y, text, [a, b]);
    var m := Extract(y, text).value;
    UpdateTwo(m, a, b);
    UpdateTwo(Set(Set(m, a), b), a', b');
    UpdateTwo(m, a', b');
    SetIs(m, a);
    SetCommutes(Set(m, a), a', b);
    SetTwice(m, a, a');
    SetTwice(Set(m, a'), b, b');
    hide Update, Set, Extract, Join, RStrip, SplitFrontMatter, Faithful;
  }

  /** `_is_empty` */
  predicate IsEmpty(v: Value) {
    match v
    case Nil => true
    case Text(s) => Blank(s)
    case Collection(size, _) => size == 0
    case Scalar(_) => false
  }

  /** `_is_placeholder` */
  predicate IsPlaceholder(v: Value) { v.Text? && Find(Lower(v.s), "pending", 0) != -1 }

  /** The word "pending" stands somewhere in the text, in capitals or not. */
  ghost predicate ReadsPending(s: string) { exists p :: PendingAt(s, p) }

  ghost predicate PendingAt(s: string, p: int) {
    && 0 <= p <= |s| - 7
    && forall i :: 0 <= i < 7 ==> s[p + i] == "pending"[i] || s[p + i] == "PENDING"[i]
  }

  lemma PlaceholderIff(s: string)
    ensures IsPlaceholder(Text(s)) <==> ReadsPending(s)
  {
    forall p ensures OccursAt("pending", Lower(s), p) <==> PendingAt(s, p) { LowerAt(s, p); }
    hide OccursAt, PendingAt;
    if p :| PendingAt(s, p) { assert OccursAt("pending", Lower(s), p) && p >= 0 by { PendingIsInside(s, p); } }
  }

  lemma PendingIsInside(s: string, p: int)
    requires PendingAt(s, p)
    ensures p >= 0
  {
  }

  lemma LowerAt(s: string, p: int)
    ensures OccursAt("pending", Lower(s), p) <==> PendingAt(s, p)
  {
    var t, m, u := Lower(s), "pending", "PENDING";
    if 0 <= p <= |s| - 7 {
      forall i | 0 <= i < 7 ensures t[p + i] == m[i] <==> s[p + i] == m[i] || s[p + i] == u[i] {
        OneLetter(s[p + i], i);
      }
      assert t[p..p + 7] == m <==> forall i :: 0 <= i < 7 ==> t[p + i] == m[i];
    }
  }

  lemma OneLetter(c: char, i: nat)
    requires i < 7
    ensures (if 'A' <= c <= 'Z' then c - 'A' + 'a' else c) == "pending"[i] <==> c == "pending"[i] || c == "PENDING"[i]
  {
    assert "PENDING"[i] - 'A' + 'a' == "pending"[i];
  }

  predicate IsProblem(m: Mapping, exempt: set<string>, field: string) {
    IsEmpty(Get(m, field, Nil)) || (field in SELF_REFERENTIAL && field !in exempt && IsPlaceholder(Get(m, field, Nil)))
  }

  function Problem(m: Mapping, exempt: set<string>): string -> bool { (field: string) => IsProblem(m, exempt, field) }

  function Problems(m: Mapping, exempt: set<string>): seq<string> { Keep(REQUIRED, Problem(m, exempt)) }

  function Validate(y: Yaml, text: string, exempt: set<string>): Result<Mapping, seq<string>> {
    match Extract(y, text)
    case None => Err(REQUIRED)
    case Some(m) => if Problems(m, exempt) == [] then Ok(m) else Err(Problems(m, exempt))
  }

  lemma NoProblemsYet(m: Mapping, exempt: set<string>)
    ensures Keep(REQUIRED[..0], Problem(m, exempt)) == []
  {
  }

  predicate IsReal(s: string) { !Blank(s) && !IsPlaceholder(Text(s)) }

  lemma RealIff(s: string)
    ensures IsReal(s) <==> (exists i :: 0 <= i < |s| && !IsSpace(s[i])) && !ReadsPending(s)
  {
    PlaceholderIff(s);
    hide IsPlaceholder, ReadsPending, IsSpace;
  }

  function Learned(key: string, status: string): seq<Field> {
    [("log_key", Text(key)), ("index_status", Text(status))]
  }

  /** After the patch only the two learned values can fail the full validation: it passes
      exactly when both are non-blank and neither reads "pending". */
  lemma RevalidationIff(m: Mapping, key: string, status: string)
    requires Problems(m, SELF_REFERENTIAL) == []
    ensures Problems(Update(m, Learned(key, status)), {}) == [] <==> IsReal(key) && IsReal(status)
  {
    hide Update, Set, Get, Keep, IsPlaceholder, Blank, Learned, Problems;
    var m' := Update(m, Learned(key, status));
    LearnedGet(m, key, status);
    NoProblemIff(m, SELF_REFERENTIAL);
    NoProblemIff(m', {});
    assert REQUIRED[3] == "log_key" && REQUIRED[4] == "index_status";
    assert IsProblem(m', {}, "log_key") <==> !IsReal(key);
    assert IsProblem(m', {}, "index_status") <==> !IsReal(status);
    forall f | f in REQUIRED && f !in SELF_REFERENTIAL ensures !IsProblem(m', {}, f) {
      assert !IsProblem(m, SELF_REFERENTIAL, f);
    }
  }

  lemma LearnedGet(m: Mapping, key: string, status: string)
    ensures var m' := Update(m, Learned(key, status));
            && Get(m', "log_key", Nil) == Text(key) && Get(m', "index_status", Nil) == Text(status)
            && forall f :: f !in SELF_REFERENTIAL ==> Get(m', f, Nil) == Get(m, f, Nil)
  {
    hide Update, Set, Get;
    var key', status' := ("log_key", Text(key)), ("index_status", Text(status));
    UpdateTwo(m, key', status');
    SetIs(m, key');
    SetIs(Set(m, key'), status');
  }

  lemma NoProblemIff(m: Mapping, exempt: set<string>)
    ensures Problems(m, exempt) == [] <==> forall f :: f in REQUIRED ==> !IsProblem(m, exempt, f)
  {
    hide IsProblem, Keep;
    KeepMembers(REQUIRED, Problem(m, exempt));
    var ps := Problems(m, exempt);
    assert ps != [] ==> ps[0] in ps;
  }

  /** A field is a problem when it is missing or nothing (null, text without a visible
      character, an empty collection), or when it is one of the two the record says about
      itself, is not exempt, and reads "pending". */
  lemma ProblemIff(m: Mapping, exempt: set<string>, field: string)
    ensures var v := Get(m, field, Nil);
            IsProblem(m, exempt, field) <==>
            || v == Nil
            || (v.Text? && forall i :: 0 <= i < |v.s| ==> IsSpace(v.s[i]))
            || (v.Collection? && v.size == 0)
            || ((field == "log_key" || field == "index_status") && field !in exempt && v.Text? && ReadsPending(v.s))
  {
    var v := Get(m, field, Nil);
    if v.Text? { PlaceholderIff(v.s); }
    hide IsPlaceholder, ReadsPending, IsSpace, Get;
  }

  predicate IsRequired(field: string) {
    field in {"spec_ref", "spec_hash", "recall_evidence", "log_key", "index_status", "branch", "commit", "gates"}
  }

  lemma RequiredIff()
    ensures forall f :: f in REQUIRED <==> IsRequired(f)
  {
  }

  /** `validate_build_record`: the loop over the required fields. */
  method ValidateBuildRecord(y: Yaml, text: string, exempt: set<string>) returns (r: Result<Mapping, seq<string>>)
    ensures r == Validate(y, text, exempt)
    ensures r.Ok? <==>
            Extract(y, text).Some? && forall f :: IsRequired(f) ==> !IsProblem(Extract(y, text).value, exempt, f)
    ensures r.Err? ==>
              forall f :: f in r.error <==>
                IsRequired(f) && (Extract(y, text).None? || IsProblem(Extract(y, text).value, exempt, f))
  {
    RequiredIff();
    hide IsRequired;
    var extracted := Extract(y, text);
    if extracted.None? {
      return Err(REQUIRED);
    }
    var m := extracted.value;
    hide Extract, IsProblem, Keep;
    var problems, i := [], 0;
    NoProblemsYet(m, exempt);
    while i < |REQUIRED|
      invariant 0 <= i <= |REQUIRED| && problems == Keep(REQUIRED[..i], Problem(m, exempt))
    {
      assert REQUIRED[..i + 1] == REQUIRED[..i] + [REQUIRED[i]];
      KeepSnoc(REQUIRED[..i], REQUIRED[i], Problem(m, exempt));
      if IsProblem(m, exempt, REQUIRED[i]) {
        problems := problems + [REQUIRED[i]];
      }
      i := i + 1;
    }
    assert REQUIRED[..i] == REQUIRED;
    KeepMembers(REQUIRED, Problem(m, exempt));
    r := if problems != [] then Err(problems) else Ok(m);
    assert problems != [] ==> problems[0] in problems;
  }

  // ------------------------------------------------------------ the memory server

  datatype Upload = Upload(layer: string, leaf: string, content: string)

  /** `key`: the response's own key or object, when it has one. `kept`: whether the content
      is now what the server stores under the requested name. */
  datatype UploadReply = UploadReply(status: int, key: Option<string>, kept: bool)

  /** `shown`: the index result as the flat text of the front matter. */
  datatype IndexReply = IndexReply(status: int, shown: string)

  class MemoryServer {
    var uploads: seq<Upload>
    var indexed: seq<string>
    var stored: map<(string, string), string>
    const onUpload: (nat, Upload) -> UploadReply
    const onIndex: (nat, string) -> IndexReply

    constructor (onUpload: (nat, Upload) -> UploadReply, onIndex: (nat, string) -> IndexReply)
      ensures uploads == [] && indexed == [] && stored == map[]
      ensures this.onUpload == onUpload && this.onIndex == onIndex
    {
      uploads, indexed, stored := [], [], map[];
      this.onUpload, this.onIndex := onUpload, onIndex;
    }

    /** An accepted upload is stored. */
    ghost predicate Keeps() { forall n, u :: onUpload(n, u).status == 200 ==> onUpload(n, u).kept }

    method PostUpload(u: Upload) returns (r: UploadReply)
      modifies this
      ensures r == onUpload(old(|uploads|), u) && uploads == old(uploads) + [u] && indexed == old(indexed)
      ensures stored == if r.kept then old(stored)[(u.layer, u.leaf) := u.content] else old(stored)
    {
      r := onUpload(|uploads|, u);
      uploads := uploads + [u];
      if r.kept { stored := stored[(u.layer, u.leaf) := u.content]; }
    }

    method PostIndex(key: string) returns (r: IndexReply)
      modifies this
      ensures r == onIndex(old(|indexed|), key) && indexed == old(indexed) + [key]
      ensures uploads == old(uploads) && stored == old(stored)
    {
      r := onIndex(|indexed|, key);
      indexed := indexed + [key];
    }
  }

  datatype LogError = NoToken | BadOutcome | Rejected(step: string, status: int) | Invalid(fields: seq<string>)

  datatype Logged = Logged(key: string, shown: string)

  function KeyOf(reply: UploadReply, u: Upload): string {
    if reply.key.Some? then reply.key.value else u.layer + "/" + u.leaf
  }

  /** `log_deploy_record`: one upload, then one index of the key it was stored under. */
  method LogDeployRecord(server: MemoryServer, token: bool, layer: string, content: string, name: string,
                         outcome: Option<string>)
    returns (r: Result<Logged, LogError>)
    modifies server
    ensures r.Ok? ==>
              var leaf := TagOutcome(EnsureMd(name), outcome);
              && leaf.Some?
              && var u := Upload(layer, leaf.value, content);
                 var reply := server.onUpload(old(|server.uploads|), u);
                 && server.uploads == old(server.uploads) + [u]
                 && server.indexed == old(server.indexed) + [r.value.key]
                 && reply.status == 200
                 && r.value.key == (if reply.key.Some? then reply.key.value else layer + "/" + leaf.value)
                 && r.value.shown == server.onIndex(old(|server.indexed|), r.value.key).shown
                 && server.stored ==
                    if reply.kept then old(server.stored)[(layer, u.leaf) := content] else old(server.stored)
    ensures r == Err(NoToken) <==> !token
    ensures r == Err(BadOutcome) <==> token && TagOutcome(EnsureMd(name), outcome).None?
    ensures r.Err? ==> !r.error.Invalid?
    ensures r.Err? && !r.error.Rejected? ==>
            server.uploads == old(server.uploads) && server.stored == old(server.stored)
  {
    if !token { return Err(NoToken); }
    var leaf := TagOutcome(EnsureMd(name), outcome);
    if leaf.None? { return Err(BadOutcome); }
    var u := Upload(layer, leaf.value, content);
    var reply := server.PostUpload(u);
    if reply.status != 200 { return Err(Rejected("upload", reply.status)); }
    var key := KeyOf(reply, u);
    var ix := server.PostIndex(key);
    if ix.status != 200 { return Err(Rejected("index", ix.status)); }
    r := Ok(Logged(key, ix.shown));
  }

  /** What a normal return of `log_build_record` promises: the stored text splits back to the
      caller's body and to the caller's fields, with only the two self-referential ones
      replaced by what the first upload taught. */
  ghost predicate Canonical(y: Yaml, text: string, stored: string, key: string, shown: string) {
    && Extract(y, text).Some? && SplitFrontMatter(stored).Some?
    && SplitFrontMatter(stored).value.body == SplitFrontMatter(text).value.body
    && Extract(y, stored) == Some(Update(Extract(y, text).value, Learned(key, shown)))
    && Get(Extract(y, stored).value, "log_key", Nil) == Text(key)
    && Get(Extract(y, stored).value, "index_status", Nil) == Text(shown)
    && Problems(Extract(y, stored).value, {}) == [] && IsReal(key) && IsReal(shown)
  }

  /** `log_build_record`. `first` and `learned` are the first upload and its result. */
  method LogBuildRecord(server: MemoryServer, y: Yaml, token: bool, layer: string, text: string, name: string,
                        outcome: Option<string>, stamp: string)
    returns (r: Result<Logged, LogError>, first: Option<Upload>, learned: Logged)
    requires Faithful(y)
    modifies server
    ensures Validate(y, text, SELF_REFERENTIAL).Err? ==>
              r.Err? && server.uploads == old(server.uploads) && server.stored == old(server.stored)
    ensures first.Some? ==>
              && first.value.layer == layer && first.value.content == text
              && Some(first.value.leaf) == TagOutcome(EnsureMd(name), outcome)
              && learned.shown == server.onIndex(old(|server.indexed|), learned.key).shown
              && var reply := server.onUpload(old(|server.uploads|), first.value);
                 learned.key == (if reply.key.Some? then reply.key.value else layer + "/" + first.value.leaf)
    ensures r.Ok? ==>
              && first.Some? && |server.uploads| == old(|server.uploads|) + 2
              && var second := server.uploads[old(|server.uploads|) + 1];
                 && server.uploads == old(server.uploads) + [first.value, second]
                 && second.layer == layer && Some(second.leaf) == SecondLeaf(learned.key, stamp, outcome)
                 && Canonical(y, text, second.content, learned.key, learned.shown)
                 && (second.leaf == first.value.leaf <==>
                     IsNameOf(Base(learned.key, stamp), first.value.leaf, outcome))
                 && (server.Keeps() ==>
                      (layer, second.leaf) in server.stored && server.stored[(layer, second.leaf)] == second.content)
    ensures r.Err? && r.error.Invalid? && Validate(y, text, SELF_REFERENTIAL).Ok? ==>
              && first.Some? && server.uploads == old(server.uploads) + [first.value]
              && !(IsReal(learned.key) && IsReal(learned.shown))
              && (server.Keeps() ==>
                    (layer, first.value.leaf) in server.stored && server.stored[(layer, first.value.leaf)] == text)
  {
    hide Patch, Problems, SplitFrontMatter, Extract, Faithful, Find, Update, TagOutcome, EnsureMd, Base, IsNameOf,
         Blank, Occurs;
    first, learned := None, Logged("", "");
    var checked := ValidateBuildRecord(y, text, SELF_REFERENTIAL);
    if checked.Err? { return Err(Invalid(checked.error)), first, learned; }
    ghost var m := checked.value;
    var phase1 := LogDeployRecord(server, token, layer, text, name, outcome);
    if phase1.Err? { return phase1, first, learned; }
    learned := phase1.value;
    first := Some(server.uploads[|server.uploads| - 1]);
    var patched := Patch(y, text, Learned(learned.key, learned.shown));
    PatchIs(y, text, Learned(learned.key, learned.shown));
    RevalidationIff(m, learned.key, learned.shown);
    LearnedGet(m, learned.key, learned.shown);
    var again := ValidateBuildRecord(y, patched.value, {});
    if again.Err? { return Err(Invalid(again.error)), first, learned; }
    r := LogDeployRecord(server, token, layer, patched.value, Base(learned.key, stamp), outcome);
    SameObjectIff(name, outcome, learned.key, stamp);
  }

  /** A record whose leaf reads "pending" can never be completed: on a server that names the
      upload after its leaf, the first copy, placeholders and all, stays the stored one. */
  lemma PendingNamesNeverComplete(name: string, outcome: Option<string>, key: string)
    requires TagOutcome(EnsureMd(name), outcome).Some?
    requires Names(key, TagOutcome(EnsureMd(name), outcome).value) &&
             IsPlaceholder(Text(TagOutcome(EnsureMd(name), outcome).value))
    ensures !IsReal(key)
  {
    var leaf := TagOutcome(EnsureMd(name), outcome).value;
    var a := key[..|key| - |leaf|];
    hide Find, Blank, TagOutcome, EnsureMd;
    NameEnds(key, leaf);
    assert Lower(key) == Lower(a) + Lower(leaf);
    OccursAfterPrefix("pending", Lower(a), Lower(leaf), Find(Lower(leaf), "pending", 0));
  }

  lemma NameEnds(key: string, leaf: string)
    requires Names(key, leaf)
    ensures |key| >= |leaf| && key == key[..|key| - |leaf|] + leaf
  {
    if key != leaf {
      var n := |key| - |leaf|;
      assert key[n - 1..] == "/" + leaf;
      assert key[n..] == key[n - 1..][1..] == leaf;
    }
  }

  lemma PendingExample()
    ensures TagOutcome(EnsureMd("pending.md"), None) == Some("pending.md") && !IsReal("episodic/pending.md")
  {
    hide Find, IsReal;
    var leaf := "pending.md";
    assert Lower(leaf) == leaf && leaf == "pending" + ".md" && OccursAt("pending", leaf, 0);
    var key := "episodic" + "/pending.md";
    assert "/" + leaf == "/pending.md" && EndsWith(key, "/pending.md");
    PendingNamesNeverComplete(leaf, None, key);
    assert key == "episodic/pending.md";
  }
}

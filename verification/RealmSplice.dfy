/** scripts/deploy/idp_export.py: locating one JSON array inside a document that is not
    itself valid JSON, and replacing it without touching anything else. */
module RealmSplice {
  import opened Text
  import opened Json
  import opened Lists
  import JsonReader

  // ------------------------------------------------------- the bracket matcher

  datatype State = State(depth: int, inString: bool, escape: bool)

  const START := State(0, false, false)

  /** The matcher stops at the `]` that brings the depth to zero. */
  predicate Closes(st: State, ch: char) { !st.inString && ch == ']' && st.depth == 1 }

  function Advance(st: State, ch: char): State {
    if st.inString then
      if st.escape then st.(escape := false)
      else if ch == '\\' then st.(escape := true)
      else if ch == '\"' then st.(inString := false)
      else st
    else if ch == '\"' then st.(inString := true)
    else if ch == '[' then st.(depth := st.depth + 1)
    else if ch == ']' then st.(depth := st.depth - 1)
    else st
  }

  /** Either the matching bracket is the `count`-th character, or it is not in the text. */
  datatype Scanned = Closed(count: nat) | Open(state: State)

  function Later(r: Scanned, n: nat): Scanned {
    if r.Closed? then Closed(n + r.count) else r
  }

  function Scan(t: string, st: State): (r: Scanned)
    ensures r.Closed? ==> 1 <= r.count <= |t|
  {
    if t == [] then Open(st)
    else if Closes(st, t[0]) then Closed(1)
    else Later(Scan(t[1..], Advance(st, t[0])), 1)
  }

  datatype SpanError = KeyNotFound | ColonNotFound | EndOfText | NotAnArray | Unterminated

  datatype SpanResult = Span(start: nat, end: nat) | Failed(error: SpanError)

  function SkipBlanks(text: string, i: nat): (r: nat)
    requires i <= |text|
    ensures i <= r <= |text|
    ensures r < |text| ==> text[r] !in BLANKS
    decreases |text| - i
  {
    if i < |text| && text[i] in BLANKS then SkipBlanks(text, i + 1) else i
  }

  /** The position of the `[` that opens the value of `key`. */
  function FindStart(text: string, key: string): (r: SpanResult)
    ensures r.Span? ==> r.start < r.end == r.start + 1 <= |text| && text[r.start] == '['
  {
    var k := Find(text, Marker(key), 0);
    if k == -1 then Failed(KeyNotFound) else
      var colon := Find(text, ":", k + |Marker(key)|);
      if colon == -1 then Failed(ColonNotFound) else
        var i := SkipBlanks(text, colon + 1);
        if i == |text| then Failed(EndOfText)
        else if text[i] != '[' then Failed(NotAnArray)
        else Span(i, i + 1)
  }

  function FindSpan(text: string, key: string): (r: SpanResult)
    ensures r.Span? ==> r.start < r.end <= |text|
  {
    var head := FindStart(text, key);
    if head.Failed? then head else
      match Scan(text[head.start..], START)
      case Closed(n) => Span(head.start, head.start + n)
      case Open(_) => Failed(Unterminated)
  }

  /** Where the search leads, and how it fails: to the first `"key"`, the first colon after it
      and the first character after that which is no blank. `k`, `c` are -1 when there is no
      such place, `i` is the text's length. */
  lemma WhereItLeads(text: string, key: string) returns (k: int, c: int, i: int)
    ensures k == -1 ==> !Occurs("\"" + key + "\"", text) && FindSpan(text, key) == Failed(KeyNotFound)
    ensures k != -1 ==>
              && OccursAt("\"" + key + "\"", text, k)
              && (forall p :: 0 <= p < k ==> !OccursAt("\"" + key + "\"", text, p))
              && (c == -1 ==> ':' !in text[k + |key| + 2..] && FindSpan(text, key) == Failed(ColonNotFound))
    ensures k != -1 && c != -1 ==>
              && k + |key| + 2 <= c < i <= |text| && text[c] == ':' && ':' !in text[k + |key| + 2..c]
              && (forall p :: c < p < i ==> text[p] in " \t\r\n") && (i < |text| ==> text[i] !in " \t\r\n")
              && (i == |text| ==> FindSpan(text, key) == Failed(EndOfText))
              && (i < |text| && text[i] != '[' ==> FindSpan(text, key) == Failed(NotAnArray))
              && (i < |text| && text[i] == '[' ==>
                    || FindSpan(text, key) == Failed(Unterminated)
                    || (FindSpan(text, key).Span? && FindSpan(text, key).start == i))
  {
    hide Find, Scan, OccursAt, SkipBlanks;
    var m := Marker(key);
    assert m == "\"" + key + "\"";
    k, c, i := Find(text, m, 0), -1, |text|;
    if k == -1 {
      if p :| OccursAt(m, text, p) { PositiveAt(m, text, p); }
    } else {
      PositiveAt(m, text, k);
      c := Find(text, ":", k + |m|);
      if c == -1 {
        NoColonAfter(text, k + |m|);
      } else {
        ColonThere(text, k + |m|, c);
        i := SkipBlanks(text, c + 1);
        SkippedAreBlank(text, c + 1);
      }
    }
  }

  lemma PositiveAt(m: string, text: string, p: int)
    requires OccursAt(m, text, p)
    ensures 0 <= p <= p + |m| <= |text|
  {
  }

  lemma NoColonAfter(text: string, from: nat)
    requires from <= |text| && Find(text, ":", from) == -1
    ensures ':' !in text[from..]
  {
    forall i | from <= i < |text| ensures text[i] != ':' {
      assert !OccursAt(":", text, i) && text[i..i + 1] == [text[i]];
    }
  }

  lemma ColonThere(text: string, from: nat, c: nat)
    requires from <= |text| && Find(text, ":", from) == c
    ensures from <= c < |text| && text[c] == ':' && ':' !in text[from..c]
  {
    hide Find;
    assert text[c..c + 1] == [text[c]];
    forall i | from <= i < c ensures text[i] != ':' {
      assert !OccursAt(":", text, i) && text[i..i + 1] == [text[i]];
    }
  }

  lemma {:induction false} SkippedAreBlank(text: string, i: nat)
    requires i <= |text|
    ensures forall p :: i <= p < SkipBlanks(text, i) ==> text[p] in BLANKS
    decreases |text| - i
  {
    if i < |text| && text[i] in BLANKS { SkippedAreBlank(text, i + 1); }
  }

  lemma ScanStep(text: string, i: nat, st: State)
    requires i < |text|
    ensures Scan(text[i..], st) ==
            if Closes(st, text[i]) then Closed(1) else Later(Scan(text[i + 1..], Advance(st, text[i])), 1)
  {
    assert text[i..][1..] == text[i + 1..];
  }

  /** `_find_json_array_span`, loop for loop. */
  method FindJsonArraySpan(text: string, key: string) returns (r: SpanResult)
    ensures r == FindSpan(text, key)
  {
    hide Find, Marker, OccursAt, Scan;
    var marker := Marker(key);
    var keyIdx := Find(text, marker, 0);
    if keyIdx == -1 { return Failed(KeyNotFound); }
    var colonIdx := Find(text, ":", keyIdx + |marker|);
    if colonIdx == -1 { return Failed(ColonNotFound); }
    var i := colonIdx + 1;
    while i < |text| && text[i] in BLANKS
      invariant colonIdx < i <= |text|
      invariant SkipBlanks(text, colonIdx + 1) == SkipBlanks(text, i)
    {
      i := i + 1;
    }
    if i == |text| { return Failed(EndOfText); }
    if text[i] != '[' { return Failed(NotAnArray); }
    var start := i;
    assert FindStart(text, key) == Span(start, start + 1);
    hide FindStart, SkipBlanks;
    var depth, inString, escape := 0, false, false;
    while i < |text|
      invariant start <= i <= |text|
      invariant Scan(text[start..], START) == Later(Scan(text[i..], State(depth, inString, escape)), i - start)
    {
      var ch := text[i];
      ScanStep(text, i, State(depth, inString, escape));
      if inString {
        if escape {
          escape := false;
        } else if ch == '\\' {
          escape := true;
        } else if ch == '\"' {
          inString := false;
        }
      } else if ch == '\"' {
        inString := true;
      } else if ch == '[' {
        depth := depth + 1;
      } else if ch == ']' {
        depth := depth - 1;
        if depth == 0 { return Span(start, i + 1); }
      }
      i := i + 1;
    }
    ScanNothing(text, State(depth, inString, escape));
    return Failed(Unterminated);
  }

  lemma ScanNothing(text: string, st: State)
    ensures Scan(text[|text|..], st) == Open(st)
  {
  }

  // ------------------------------------------------ the matcher on printed text

  lemma {:induction false} ScanConcat(a: string, b: string, st: State)
    ensures Scan(a + b, st) == match Scan(a, st)
                               case Closed(n) => Closed(n)
                               case Open(st') => Later(Scan(b, st'), |a|)
  {
    if a == [] {
      assert a + b == b;
    } else {
      ScanConcat(a[1..], b, Advance(st, a[0]));
      assert (a + b)[1..] == a[1..] + b;
    }
  }

  /** Only the text up to the matching bracket matters. */
  lemma {:induction false} ScanIsLocal(t: string, st: State)
    requires Scan(t, st).Closed?
    ensures Scan(t[..Scan(t, st).count], st) == Scan(t, st)
  {
    if !Closes(st, t[0]) {
      ScanIsLocal(t[1..], Advance(st, t[0]));
      var n := Scan(t, st).count;
      assert t[..n][1..] == t[1..][..n - 1];
    }
  }

  function Outside(depth: int): State { State(depth, false, false) }

  lemma {:induction false} ScanNeutral(t: string, depth: int)
    requires forall i :: 0 <= i < |t| ==> t[i] !in "\"[]"
    ensures Scan(t, Outside(depth)) == Open(Outside(depth))
  {
    if t != [] { ScanNeutral(t[1..], depth); }
  }

  lemma {:induction false} ScanLiteralBody(t: string, depth: int)
    requires LiteralBody(t)
    ensures Scan(t, State(depth, true, false)) == Open(State(depth, true, false))
  {
    if t != [] {
      if t[0] == '\\' {
        ScanLiteralBody(t[2..], depth);
        assert t[1..][1..] == t[2..];
      } else {
        ScanLiteralBody(t[1..], depth);
      }
    }
  }

  lemma ScanQuoted(f: char -> string, s: string, depth: int)
    requires forall c :: EscapesWell(f, c)
    ensures Scan(Quote(f, s), Outside(depth)) == Open(Outside(depth))
  {
    var body := EscapeText(f, s);
    EscapedIsBody(f, s);
    ScanLiteralBody(body, depth);
    ScanConcat(body, "\"", State(depth, true, false));
    ScanConcat("\"", body + "\"", Outside(depth));
    assert Quote(f, s) == "\"" + (body + "\"");
    assert "\""[1..] == "";
  }

  /** Scanning a whole printed value leaves the matcher where it was; an array met at
      depth zero is closed by its own last character, whatever its strings contain. */
  lemma {:induction false} ScanPrinted(l: Printer, v: Json, level: nat, depth: nat)
    requires ValidPrinter(l)
    requires depth == 0 ==> v.Arr?
    ensures Scan(Dumps(l, v, level), Outside(depth)) ==
            if depth == 0 then Closed(|Dumps(l, v, level)|) else Open(Outside(depth))
    decreases v, 1
  {
    hide Scan, DumpItems, DumpMembers, Quote;
    match v
    case Str(s) => ScanQuoted(l.escape, s, depth);
    case Arr(items) => ScanArray(l, items, level, depth);
    case Obj(members) => ScanObject(l, members, level, depth);
    case _ =>
      AtomIsNeutral(l, v, level);
      ScanNeutral(Dumps(l, v, level), depth);
  }

  lemma AtomIsNeutral(l: Printer, v: Json, level: nat)
    requires v.Null? || v.Bool? || v.Number?
    ensures forall i :: 0 <= i < |Dumps(l, v, level)| ==> Dumps(l, v, level)[i] !in "\"[]"
  {
    if v.Number? { NumeralChars(v.numeral); }
  }

  lemma ScanArray(l: Printer, items: seq<Json>, level: nat, depth: nat)
    requires ValidPrinter(l)
    ensures Scan(Dumps(l, Arr(items), level), Outside(depth)) ==
            if depth == 0 then Closed(|Dumps(l, Arr(items), level)|) else Open(Outside(depth))
    decreases items, 1
  {
    hide Scan, DumpItems;
    if items == [] {
      ScanNeutral("", depth + 1);
      ScanBracket("", "", "", depth);
      assert "[" + "" + "" + "" + "]" == "[]";
    } else {
      ScanItems(l, items, level + 1, depth + 1);
      ScanBracket(l.newline(level + 1), DumpItems(l, items, level + 1), l.newline(level), depth);
    }
  }

  lemma ScanObject(l: Printer, members: seq<(string, Json)>, level: nat, depth: nat)
    requires ValidPrinter(l) && depth >= 1
    ensures Scan(Dumps(l, Obj(members), level), Outside(depth)) == Open(Outside(depth))
    decreases members, 1
  {
    hide Scan, DumpMembers;
    if members == [] {
      ScanNeutral("{}", depth);
    } else {
      ScanMembers(l, members, level + 1, depth);
      ScanBrace(l.newline(level + 1), DumpMembers(l, members, level + 1), l.newline(level), depth);
    }
  }

  lemma ScanOneBracket(depth: nat)
    ensures Scan("[", Outside(depth)) == Open(Outside(depth + 1))
    ensures Scan("]", Outside(depth + 1)) == if depth == 0 then Closed(1) else Open(Outside(depth))
  {
    assert "["[1..] == "" && "]"[1..] == "";
  }

  lemma ScanBracket(nl1: string, inner: string, nl: string, depth: nat)
    requires AllIn(nl1, BLANKS) && AllIn(nl, BLANKS)
    requires Scan(inner, Outside(depth + 1)) == Open(Outside(depth + 1))
    ensures var t := "[" + nl1 + inner + nl + "]";
            Scan(t, Outside(depth)) == if depth == 0 then Closed(|t|) else Open(Outside(depth))
  {
    hide Scan;
    var d, d1 := Outside(depth), Outside(depth + 1);
    ScanOneBracket(depth);
    ScanNeutral(nl1, depth + 1);
    ScanNeutral(nl, depth + 1);
    ScanConcat("[", nl1, d);
    ScanConcat("[" + nl1, inner, d);
    ScanConcat("[" + nl1 + inner, nl, d);
    ScanConcat("[" + nl1 + inner + nl, "]", d);
  }

  lemma ScanBrace(nl1: string, inner: string, nl: string, depth: nat)
    requires AllIn(nl1, BLANKS) && AllIn(nl, BLANKS)
    requires Scan(inner, Outside(depth)) == Open(Outside(depth))
    ensures Scan("{" + nl1 + inner + nl + "}", Outside(depth)) == Open(Outside(depth))
  {
    hide Scan;
    var d := Outside(depth);
    ScanNeutral("{" + nl1, depth);
    ScanNeutral(nl, depth);
    ScanNeutral("}", depth);
    ScanConcat("{" + nl1, inner, d);
    ScanConcat("{" + nl1 + inner, nl, d);
    ScanConcat("{" + nl1 + inner + nl, "}", d);
  }

  lemma {:induction false} ScanItems(l: Printer, items: seq<Json>, level: nat, depth: nat)
    requires ValidPrinter(l) && items != [] && depth >= 1
    ensures Scan(DumpItems(l, items, level), Outside(depth)) == Open(Outside(depth))
    decreases items, 0
  {
    ScanPrinted(l, items[0], level, depth);
    if |items| > 1 {
      ScanItems(l, items[1..], level, depth);
      ScanJoined(Dumps(l, items[0], level), "," + l.newline(level), DumpItems(l, items[1..], level), depth);
    }
  }

  lemma ScanMember(l: Printer, m: (string, Json), level: nat, depth: nat)
    requires ValidPrinter(l) && depth >= 1
    ensures Scan(DumpMember(l, m, level), Outside(depth)) == Open(Outside(depth))
    decreases m, 2
  {
    ScanQuoted(l.escape, m.0, depth);
    ScanPrinted(l, m.1, level, depth);
    ScanJoined(Quote(l.escape, m.0), ":" + l.afterColon, Dumps(l, m.1, level), depth);
  }

  lemma {:induction false} ScanMembers(l: Printer, members: seq<(string, Json)>, level: nat, depth: nat)
    requires ValidPrinter(l) && members != [] && depth >= 1
    ensures Scan(DumpMembers(l, members, level), Outside(depth)) == Open(Outside(depth))
    decreases members, 0
  {
    ScanMember(l, members[0], level, depth);
    if |members| > 1 {
      ScanMembers(l, members[1..], level, depth);
      ScanJoined(DumpMember(l, members[0], level), "," + l.newline(level), DumpMembers(l, members[1..], level), depth);
    }
  }

  lemma ScanJoined(a: string, sep: string, b: string, depth: nat)
    requires Scan(a, Outside(depth)) == Scan(b, Outside(depth)) == Open(Outside(depth))
    requires forall i :: 0 <= i < |sep| ==> sep[i] !in "\"[]"
    ensures Scan(a + sep + b, Outside(depth)) == Open(Outside(depth))
  {
    ScanNeutral(sep, depth);
    ScanConcat(a, sep, Outside(depth));
    ScanConcat(a + sep, b, Outside(depth));
  }

  /** Text the matcher takes as exactly one array. */
  ghost predicate ArrayText(a: string) {
    |a| >= 2 && a[0] == '[' && a[|a| - 1] == ']' && Scan(a, START) == Closed(|a|)
  }

  lemma PrintedArrayText(l: Printer, items: seq<Json>, level: nat)
    requires ValidPrinter(l)
    ensures ArrayText(Dumps(l, Arr(items), level))
  {
    ScanPrinted(l, Arr(items), level, 0);
  }

  // ----------------------------------------------- locality of the whole search

  lemma StartIsLocal(text: string, other: string, key: string)
    requires FindStart(text, key).Span?
    requires var e := FindStart(text, key).end; e <= |other| && other[..e] == text[..e]
    ensures FindStart(other, key) == FindStart(text, key)
  {
    hide Find, OccursAt, Marker, SkipBlanks;
    var m := Marker(key);
    var k := Find(text, m, 0);
    var c := Find(text, ":", k + |m|);
    var i := SkipBlanks(text, c + 1);
    assert forall p :: 0 <= p <= i ==> other[p] == other[..i + 1][p] && other[p] == text[p];
    assert other[..k + |m|] == text[..k + |m|];
    FindIsLocal(text, other, m, 0, k);
    assert other[..c + 1] == text[..c + 1];
    FindIsLocal(text, other, ":", k + |m|, c);
    BlanksAreLocal(text, other, c + 1);
  }

  lemma {:induction false} BlanksAreLocal(text: string, other: string, i: nat)
    requires i <= |text| && SkipBlanks(text, i) < |text|
    requires SkipBlanks(text, i) < |other|
    requires forall p :: i <= p <= SkipBlanks(text, i) ==> other[p] == text[p]
    ensures SkipBlanks(other, i) == SkipBlanks(text, i)
    decreases |text| - i
  {
    if text[i] in BLANKS { BlanksAreLocal(text, other, i + 1); }
  }

  /** Whatever array now stands at the old position is the one that is found. */
  lemma FoundInPlace(text: string, key: string, a: string, rest: string)
    requires FindStart(text, key).Span? && ArrayText(a)
    ensures var s := FindStart(text, key).start;
            FindSpan(text[..s] + a + rest, key) == Span(s, s + |a|)
  {
    hide FindStart, Scan;
    var s := FindStart(text, key).start;
    var other := text[..s] + a + rest;
    OpensAt(text, key);
    OneMoreOf(text[..s], a, rest);
    StartIsLocal(text, other, key);
    ScanConcat(a, rest, START);
    assert other[s..] == a + rest;
  }

  lemma OpensAt(text: string, key: string)
    requires FindStart(text, key).Span?
    ensures var s := FindStart(text, key).start;
            s < |text| && FindStart(text, key).end == s + 1 && text[..s + 1] == text[..s] + ['[']
  {
    hide Find, Marker, SkipBlanks;
  }

  lemma OneMoreOf(head: string, a: string, rest: string)
    requires a != [] && a[0] == '['
    ensures (head + a + rest)[..|head| + 1] == head + ['[']
  {
  }

  lemma SpanIsLocal(text: string, other: string, key: string)
    requires FindSpan(text, key).Span?
    requires var e := FindSpan(text, key).end; e <= |other| && other[..e] == text[..e]
    ensures FindSpan(other, key) == FindSpan(text, key)
  {
    hide Scan, FindStart;
    var s, e := FindSpan(text, key).start, FindSpan(text, key).end;
    SlicesAgree(text, other, s, e);
    StartIsLocal(text, other, key);
    ScanIsLocal(text[s..], START);
    ScanConcat(other[s..][..e - s], other[e..], START);
  }

  lemma SlicesAgree(text: string, other: string, s: nat, e: nat)
    requires s < e <= |text| && e <= |other| && other[..e] == text[..e]
    ensures other[..s + 1] == text[..s + 1] && text[s..][..e - s] == other[s..][..e - s]
    ensures other[s..] == other[s..][..e - s] + other[e..]
  {
    assert other[..s + 1] == other[..e][..s + 1] && text[..e][..s + 1] == text[..s + 1];
    assert text[s..][..e - s] == text[..e][s..] && other[..e][s..] == other[s..][..e - s];
  }

  function MovedBy(r: SpanResult, n: nat): SpanResult {
    if r.Span? then Span(n + r.start, n + r.end) else r
  }

  lemma StartAfterPrefix(p: string, r: string, key: string)
    requires forall i :: 0 <= i < |p| ==> !OccursAt(Marker(key), p + r, i)
    ensures FindStart(p + r, key) == MovedBy(FindStart(r, key), |p|)
  {
    hide Find, OccursAt, Marker, SkipBlanks;
    FindAfterPrefix(p, r, Marker(key), 0, 0);
    var k := Find(r, Marker(key), 0);
    if k != -1 {
      FindAfterPrefix(p, r, ":", |p| + k + |Marker(key)|, k + |Marker(key)|);
      var c := Find(r, ":", k + |Marker(key)|);
      if c != -1 { BlanksAfterPrefix(p, r, c + 1); }
    }
  }

  /** A prefix in which no occurrence of the marker starts only moves the answer. */
  lemma SpanAfterPrefix(p: string, r: string, key: string)
    requires forall i :: 0 <= i < |p| ==> !OccursAt(Marker(key), p + r, i)
    ensures FindSpan(p + r, key) == MovedBy(FindSpan(r, key), |p|)
  {
    hide FindStart, OccursAt, Marker, Scan;
    StartAfterPrefix(p, r, key);
    var head := FindStart(r, key);
    if head.Span? { assert (p + r)[|p| + head.start..] == r[head.start..]; }
  }

  lemma {:induction false} BlanksAfterPrefix(p: string, r: string, i: nat)
    requires i <= |r|
    ensures SkipBlanks(p + r, |p| + i) == |p| + SkipBlanks(r, i)
    decreases |r| - i
  {
    if i < |r| && r[i] in BLANKS { BlanksAfterPrefix(p, r, i + 1); }
  }

  // ------------------------------------------------------- scanner inverts printer

  /** The matcher inverts the printer: where the first `"key"` is followed by a colon,
      blanks and a printed array, the span is exactly that array, for every array value,
      nesting level, printer, prefix and suffix. */
  lemma SpanOfPrinted(l: Printer, items: seq<Json>, level: nat, key: string,
                      pre: string, gap: string, blanks: string, post: string)
    requires ValidPrinter(l) && ':' !in gap && AllIn(blanks, BLANKS)
    requires var text := pre + Marker(key) + gap + ":" + blanks + Dumps(l, Arr(items), level) + post;
             Find(text, Marker(key), 0) == |pre|
    ensures var printed := Dumps(l, Arr(items), level);
            var text := pre + Marker(key) + gap + ":" + blanks + printed + post;
            var s := |pre| + |Marker(key)| + |gap| + 1 + |blanks|;
            FindSpan(text, key) == Span(s, s + |printed|) && text[s..s + |printed|] == printed
  {
    hide Dumps, Scan, Find, OccursAt, FindStart, Marker, ValidPrinter;
    var printed := Dumps(l, Arr(items), level);
    var before := pre + Marker(key) + gap + ":" + blanks;
    PrintedArrayText(l, items, level);
    var text := before + printed + post;
    Nested(pre + Marker(key), gap, blanks, printed, post);
    StartOfValue(text, key, pre + Marker(key), gap, blanks, printed[1..] + post);
    FoundInPlace(text, key, printed, post);
    assert text[..|before|] == before;
  }

  lemma Nested(head: string, gap: string, blanks: string, printed: string, post: string)
    requires printed != [] && printed[0] == '['
    ensures head + gap + ":" + blanks + printed + post ==
            head + (gap + (":" + (blanks + ("[" + (printed[1..] + post)))))
  {
    assert printed == "[" + printed[1..];
  }

  lemma StartOfValue(text: string, key: string, head: string, gap: string, blanks: string, rest: string)
    requires ':' !in gap && AllIn(blanks, BLANKS)
    requires text == head + (gap + (":" + (blanks + ("[" + rest))))
    requires Find(text, Marker(key), 0) + |Marker(key)| == |head| && Find(text, Marker(key), 0) >= 0
    ensures var s := |head| + |gap| + 1 + |blanks|;
            FindStart(text, key) == Span(s, s + 1)
  {
    hide SkipBlanks, Marker, OccursAt, Find;
    var tail, i := gap + (":" + (blanks + ("[" + rest))), |gap| + 1;
    FirstColon(gap, blanks + ("[" + rest));
    FindAfterPrefix(head, tail, ":", |head|, 0);
    BlanksOfValue(gap, blanks, rest);
    BlanksAfterPrefix(head, tail, i);
  }

  lemma BlanksOfValue(gap: string, blanks: string, rest: string)
    requires AllIn(blanks, BLANKS)
    ensures var tail, i := gap + (":" + (blanks + ("[" + rest))), |gap| + 1;
            SkipBlanks(tail, i) == i + |blanks| < |tail| && tail[i + |blanks|] == '['
  {
    var tail, i := gap + (":" + (blanks + ("[" + rest))), |gap| + 1;
    assert tail[i..i + |blanks|] == blanks;
    BlanksRun(tail, i, i + |blanks|);
  }

  lemma FirstColon(gap: string, after: string)
    requires ':' !in gap
    ensures Find(gap + (":" + after), ":", 0) == |gap|
  {
    var text := gap + (":" + after);
    assert OccursAt(":", text, |gap|);
    forall p | 0 <= p < |gap| ensures !OccursAt(":", text, p) {
      assert text[p..p + 1] == [gap[p]];
    }
    hide Find, OccursAt;
  }

  lemma {:induction false} BlanksRun(text: string, i: nat, j: nat)
    requires i <= j < |text| && AllIn(text[i..j], BLANKS) && text[j] !in BLANKS
    ensures SkipBlanks(text, i) == j
    decreases j - i
  {
    if i < j {
      assert text[i..j][0] == text[i] && text[i..j][1..] == text[i + 1..j];
      BlanksRun(text, i + 1, j);
    }
  }

  // ----------------------------------------------------------------- splicing

  datatype Outcome = Patched(text: string) | Refused(error: SpanError)

  /** Replace the array of one key by `a`. */
  function Splice(text: string, key: string, a: string): Outcome {
    match FindSpan(text, key)
    case Failed(x) => Refused(x)
    case Span(s, e) => Patched(text[..s] + a + text[e..])
  }

  type Payload = map<string, seq<Json>>

  function ArrayOf(items: seq<Json>): string { Dumps(PYTHON, Arr(items), 0) }

  lemma ArrayOfIsArray(items: seq<Json>)
    ensures ArrayText(ArrayOf(items))
  {
    hide Dumps, ValidPrinter;
    PythonIsValid();
    PrintedArrayText(PYTHON, items, 0);
  }

  lemma ArrayOfShows(items: seq<Json>, key: string)
    requires Word(key)
    ensures Occurs(Marker(key), ArrayOf(items)) <==> SomeShows(Strings(Arr(items)), key)
  {
    hide Dumps, ValidPrinter, Word;
    PythonIsValid();
    DumpsShows(PYTHON, Arr(items), 0, key);
  }

  function PatchKeys(text: string, payload: Payload, keys: seq<string>): Outcome
    decreases |keys|
  {
    if keys == [] then Patched(text)
    else if keys[0] !in payload then PatchKeys(text, payload, keys[1..])
    else match Splice(text, keys[0], ArrayOf(payload[keys[0]]))
      case Refused(x) => Refused(x)
      case Patched(t) => PatchKeys(t, payload, keys[1..])
  }

  const MAPPERS := "identityProviderMappers"
  const PROVIDERS := "identityProviders"
  const KEYS := [MAPPERS, PROVIDERS]

  /** Both keys are in payload and document, and the array that stands first lets the other
      key be reached. */
  predicate BothPatchable(text: string, p: Payload, k1: string, k2: string) {
    && k1 in p && k2 in p && Word(k1) && Word(k2) && HoldsBoth(text, k1, k2)
    && Reaches(text, k1, k2, ArrayOf(p[k1]), ArrayOf(p[k2]))
  }

  lemma PatchableDenotes(text: string, p: Payload, k1: string, k2: string)
    requires BothPatchable(text, p, k1, k2)
    ensures var r := PatchKeys(text, p, [k1, k2]);
            && r.Patched? && ValueAt(r.text, k1) == Some(Arr(p[k1])) && ValueAt(r.text, k2) == Some(Arr(p[k2]))
  {
    hide ArrayOf, Word, HoldsBoth, Reaches, PatchKeys, ValueAt;
    PatchedDenotes(text, p, k1, k2);
  }

  /** `patch_realm_document`: the loop that rebinds `result`. */
  method PatchRealmDocument(documentText: string, payload: Payload, keys: seq<string> := KEYS) returns (r: Outcome)
    ensures r == PatchKeys(documentText, payload, keys)
    ensures |keys| == 2 && BothPatchable(documentText, payload, keys[0], keys[1]) ==>
              && r.Patched? && ValueAt(r.text, keys[0]) == Some(Arr(payload[keys[0]]))
              && ValueAt(r.text, keys[1]) == Some(Arr(payload[keys[1]]))
  {
    hide FindSpan, ArrayOf, ValueAt, BothPatchable;
    if |keys| == 2 && BothPatchable(documentText, payload, keys[0], keys[1]) {
      PatchableDenotes(documentText, payload, keys[0], keys[1]);
      assert keys == [keys[0], keys[1]];
    }
    var result := documentText;
    for n := 0 to |keys|
      invariant PatchKeys(documentText, payload, keys) == PatchKeys(result, payload, keys[n..])
    {
      var key := keys[n];
      assert keys[n..][1..] == keys[n + 1..];
      if key in payload {
        var span := FindJsonArraySpan(result, key);
        match span {
          case Failed(x) => return Refused(x);
          case Span(s, e) => result := result[..s] + ArrayOf(payload[key]) + result[e..];
        }
      }
    }
    return Patched(result);
  }

  /** The value that the text at a key's span denotes. */
  function ValueAt(text: string, key: string): Option<Json> {
    match FindSpan(text, key)
    case Failed(_) => None
    case Span(s, e) => JsonReader.Denotes(text[s..e])
  }

  lemma ArrayOfDenotes(items: seq<Json>)
    ensures JsonReader.Denotes(ArrayOf(items)) == Some(Arr(items))
  {
    hide *;
    ArrayOfIs(items);
    assert AllIn("", BLANKS) by { NoBlanks(); }
    JsonReader.PythonDenotes(Arr(items), 0, "", "");
  }

  lemma ArrayOfIs(items: seq<Json>)
    ensures ArrayOf(items) == "" + Dumps(PYTHON, Arr(items), 0) + ""
  {
    hide Dumps;
  }

  lemma NoBlanks()
    ensures AllIn("", BLANKS)
  {
  }

  /** After a splice the key's own span denotes exactly the new array, unconditionally. */
  lemma SpliceDenotes(text: string, key: string, items: seq<Json>)
    requires FindSpan(text, key).Span?
    ensures Splice(text, key, ArrayOf(items)).Patched?
    ensures ValueAt(Splice(text, key, ArrayOf(items)).text, key) == Some(Arr(items))
  {
    var s, e, a := FindSpan(text, key).start, FindSpan(text, key).end, ArrayOf(items);
    ArrayOfIsArray(items);
    ArrayOfDenotes(items);
    FoundInPlace(text, key, a, text[e..]);
    hide FindSpan, ArrayOf, ArrayText;
    var t := text[..s] + a + text[e..];
    assert t[s..s + |a|] == a;
  }

  /** Splicing one key twice keeps the last array, unconditionally. */
  lemma SpliceLastWins(text: string, key: string, a: string, b: string)
    requires FindSpan(text, key).Span? && ArrayText(a)
    ensures Splice(text, key, a).Patched?
    ensures Splice(Splice(text, key, a).text, key, b) == Splice(text, key, b)
  {
    hide FindStart, Scan;
    var s, e := FindSpan(text, key).start, FindSpan(text, key).end;
    FoundInPlace(text, key, a, text[e..]);
    var mid := text[..s] + a + text[e..];
    assert mid[..s] == text[..s] && mid[s + |a|..] == text[e..];
  }

  /** The document holds both members, `first` wholly before `second`: the marker of
      `second` first occurs after the end of `first`'s array. */
  predicate Ordered(text: string, first: string, second: string) {
    && FindSpan(text, first).Span? && FindSpan(text, second).Span?
    && FindSpan(text, first).end <= Find(text, Marker(second), 0)
  }

  /** What surrounds the two arrays of an ordered document. */
  datatype Frame = Frame(head: string, between: string, tail: string)

  function Fill(f: Frame, a: string, b: string): string { f.head + a + f.between + b + f.tail }

  lemma SpanFollowsKey(text: string, key: string)
    requires FindSpan(text, key).Span?
    ensures 0 <= Find(text, Marker(key), 0) <= Find(text, Marker(key), 0) + |Marker(key)| < FindSpan(text, key).start
  {
    hide Find, Scan, SkipBlanks, OccursAt;
  }

  function FrameOf(text: string, first: string, second: string): (f: Frame)
    requires Ordered(text, first, second)
  {
    SpanFollowsKey(text, second);
    var a, b := FindSpan(text, first), FindSpan(text, second);
    Frame(text[..a.start], text[a.end..b.start], text[b.end..])
  }

  /** A document is its frame filled with its own two arrays. */
  lemma FrameFills(text: string, first: string, second: string)
    requires Ordered(text, first, second)
    ensures var a, b := FindSpan(text, first), FindSpan(text, second);
            text == Fill(FrameOf(text, first, second), text[a.start..a.end], text[b.start..b.end])
  {
    hide FindSpan, Find, Marker;
    SpanFollowsKey(text, second);
    var a, b := FindSpan(text, first), FindSpan(text, second);
    FiveParts(text, a.start, a.end, b.start, b.end);
  }

  lemma FiveParts(text: string, i: nat, j: nat, k: nat, n: nat)
    requires i <= j <= k <= n <= |text|
    ensures text == text[..i] + text[i..j] + text[j..k] + text[k..n] + text[n..]
  {
    assert text[..i] + text[i..j] == text[..j];
    assert text[..j] + text[j..k] == text[..k];
    assert text[..k] + text[k..n] == text[..n];
  }

  /** What stands between the first array and the second key's marker. */
  function Before(text: string, first: string, second: string): string
    requires Ordered(text, first, second)
  {
    SpanFollowsKey(text, second);
    text[FindSpan(text, first).end..Find(text, Marker(second), 0)]
  }

  /** With `a` as the first array, the second key still leads to its own value: `a` does
      not show the key, or no colon follows its first shown marker up to the key's own. */
  predicate KeyReached(a: string, before: string, key: string) {
    var p := Find(a, Marker(key), 0);
    p == -1 || (':' !in a[p + |Marker(key)|..] && ':' !in before)
  }

  lemma NotShownIsReached(a: string, before: string, key: string)
    requires !Occurs(Marker(key), a)
    ensures KeyReached(a, before, key)
  {
    hide Marker, OccursAt;
  }

  /** No match starts in kept text that precedes a bracket. */
  lemma NoneInHead(text: string, key: string, head: string, after: string, i: nat)
    requires Word(key) && i < |head| <= |text| && head == text[..|head|] && |head| <= Find(text, Marker(key), 0)
    ensures !OccursAt(Marker(key), head + ("[" + after), i)
  {
    hide Find, OccursAt;
    var m := Marker(key);
    ForeignBrackets(key);
    assert head + ("[" + after) == head + "[" + after;
    OccursAcross(m, head, "[", after);
    if i + |m| <= |head| {
      assert text == head + text[|head|..];
      OccursInPrefix(m, head, "[" + after, i);
      OccursInPrefix(m, head, text[|head|..], i);
    }
  }

  lemma NoneBefore(text: string, key: string, head: string, a: string, rest: string, i: nat)
    requires Word(key) && ArrayText(a) && !Occurs(Marker(key), a)
    requires |head| <= Find(text, Marker(key), 0) && |head| <= |text| && head == text[..|head|]
    requires i < |head + a|
    ensures !OccursAt(Marker(key), head + a + rest, i)
  {
    hide Find, Scan, OccursAt, Marker;
    var m, moved := Marker(key), head + a + rest;
    if i < |head| {
      NoneInHead(text, key, head, a[1..] + rest, i);
      assert moved == head + ("[" + (a[1..] + rest));
    } else {
      ForeignBrackets(key);
      assert moved == (head + a[..|a| - 1]) + "]" + rest;
      OccursAcross(m, head + a[..|a| - 1], "]", rest);
      OccursAfterPrefix(m, head, a, i - |head|);
      if i + |m| <= |head + a| {
        OccursInPrefix(m, head + a, rest, i);
      }
    }
  }

  lemma ForeignBrackets(key: string)
    requires Word(key)
    ensures '[' !in Marker(key) && ']' !in Marker(key) && Marker(key) != []
  {
  }

  /** From the marker to the value: a gap without colon, the colon, blanks. */
  lemma SecondParts(text: string, first: string, second: string) returns (gap: string, blanks: string)
    requires Ordered(text, first, second)
    ensures FrameOf(text, first, second).between == Before(text, first, second) + Marker(second) + gap + ":" + blanks
    ensures ':' !in gap && AllIn(blanks, BLANKS)
  {
    hide Find, Marker, SkipBlanks, FindStart, Scan, FindSpan;
    var m, e, s := Marker(second), FindSpan(text, first).end, FindSpan(text, second).start;
    var k, c := WayToValue(text, second);
    gap, blanks := text[k + |m|..c], text[c + 1..s];
    BlanksSkipped(text, c + 1);
    NoColonBefore(text, k + |m|, c);
    MarkerIsThere(m, text, k);
    MarkerIsThere(":", text, c);
    Pieces(text, e, k, k + |m|, c, s);
  }

  lemma WayToValue(text: string, key: string) returns (k: nat, c: nat)
    requires FindSpan(text, key).Span?
    ensures k == Find(text, Marker(key), 0) && c == Find(text, ":", k + |Marker(key)|)
    ensures OccursAt(Marker(key), text, k) && OccursAt(":", text, c)
    ensures c + 1 <= SkipBlanks(text, c + 1) == FindSpan(text, key).start < |text|
  {
    hide Find, Marker, SkipBlanks, Scan, OccursAt;
    k := Find(text, Marker(key), 0);
    c := Find(text, ":", k + |Marker(key)|);
  }

  lemma Pieces(text: string, e: nat, k: nat, g: nat, c: nat, s: nat)
    requires e <= k <= g <= c < s <= |text|
    ensures text[e..s] == text[e..k] + text[k..g] + text[g..c] + text[c..c + 1] + text[c + 1..s]
  {
    CutAt(text, e, k, s);
    CutAt(text, k, g, s);
    CutAt(text, g, c, s);
    CutAt(text, c, c + 1, s);
  }

  lemma CutAt(text: string, a: nat, b: nat, c: nat)
    requires a <= b <= c <= |text|
    ensures text[a..c] == text[a..b] + text[b..c]
  {
  }

  lemma MarkerIsThere(m: string, text: string, k: int)
    requires OccursAt(m, text, k)
    ensures 0 <= k <= k + |m| <= |text| && text[k..k + |m|] == m
  {
  }

  lemma NoColonBefore(text: string, from: nat, c: nat)
    requires Find(text, ":", from) == c
    ensures from <= c < |text| && ':' !in text[from..c]
  {
    hide Find;
    forall i | from <= i < c ensures text[i] != ':' {
      assert !OccursAt(":", text, i);
      assert text[i..i + 1] == [text[i]];
    }
  }

  lemma {:induction false} BlanksSkipped(text: string, i: nat)
    requires i <= |text|
    ensures AllIn(text[i..SkipBlanks(text, i)], BLANKS)
    decreases |text| - i
  {
    if i < |text| && text[i] in BLANKS {
      BlanksSkipped(text, i + 1);
      assert text[i..SkipBlanks(text, i)] == [text[i]] + text[i + 1..SkipBlanks(text, i)];
    }
  }

  lemma {:induction false} BlanksStop(text: string, i: nat, j: nat)
    requires i <= j < |text| && text[j] !in BLANKS
    ensures SkipBlanks(text, i) <= j
    decreases j - i
  {
    if i < j && text[i] in BLANKS { BlanksStop(text, i + 1, j); }
  }

  /** The value after `h + g + ":"` is the one the search opens exactly when `g` has no
      colon of its own. */
  lemma StartIff(t: string, key: string, h: string, g: string, blanks: string, rest: string)
    requires AllIn(blanks, BLANKS)
    requires t == h + (g + (":" + (blanks + ("[" + rest))))
    requires Find(t, Marker(key), 0) + |Marker(key)| == |h| && Find(t, Marker(key), 0) >= 0
    ensures var s := |h| + |g| + 1 + |blanks|; FindStart(t, key) == Span(s, s + 1) <==> ':' !in g
  {
    hide SkipBlanks, Marker, FindStart, Find, OccursAt;
    if ':' !in g {
      StartOfValue(t, key, h, g, blanks, rest);
    } else {
      var after := ":" + (blanks + ("[" + rest));
      ColonInside(h, g, after);
      CharAfter(h, g, after);
      StartIsAfterColon(t, key);
      BlanksStop(t, Find(t, ":", |h|) + 1, |h| + |g|);
    }
  }

  lemma StartIsAfterColon(t: string, key: string)
    requires Find(t, Marker(key), 0) != -1 && Find(t, ":", Find(t, Marker(key), 0) + |Marker(key)|) != -1
    ensures FindStart(t, key).Span? ==>
              FindStart(t, key).start == SkipBlanks(t, Find(t, ":", Find(t, Marker(key), 0) + |Marker(key)|) + 1)
  {
    hide Find, SkipBlanks, Marker, OccursAt;
  }

  lemma CharAfter(h: string, g: string, after: string)
    requires after != []
    ensures |h| + |g| < |h + (g + after)| && (h + (g + after))[|h| + |g|] == after[0]
  {
  }

  lemma ColonInside(h: string, g: string, after: string)
    requires ':' in g
    ensures |h| <= Find(h + (g + after), ":", |h|) < |h| + |g|
  {
    hide Find;
    var t := h + (g + after);
    var i :| 0 <= i < |g| && g[i] == ':';
    assert t[|h| + i] == g[i] && t[|h| + i..|h| + i + 1] == [t[|h| + i]];
    assert OccursAt(":", t, |h| + i);
  }

  /** Where the marker is first found when the first array is `a` and what follows starts
      with `before` and the marker. */
  lemma MarkerIs(text: string, first: string, second: string, a: string, after: string)
    requires Ordered(text, first, second) && Word(second) && ArrayText(a)
    ensures var head, m, p := text[..FindSpan(text, first).start], Marker(second), Find(a, Marker(second), 0);
            Find(head + a + (Before(text, first, second) + m + after), m, 0) ==
            if p == -1 then |head + a + Before(text, first, second)| else |head| + p
  {
    hide FindSpan, Find, Marker, ArrayText, OccursAt;
    SpanFollowsKey(text, second);
    var x, m := FindSpan(text, first), Marker(second);
    var head, before, p := text[..x.start], Before(text, first, second), Find(a, m, 0);
    var rest, was := before + m + after, text[x.end..];
    var t := head + a + rest;
    if p == -1 {
      assert text == text[..x.end] + was;
      FindAfterPrefix(text[..x.end], was, m, 0, 0);
      MarkerIsThere(m, text, |text[..x.end]| + |before|);
      assert was[..|before| + |m|] == before + m == rest[..|before| + |m|];
      FindIsLocal(was, rest, m, 0, |before|);
      NotFoundIsNowhere(a, m);
      forall i | 0 <= i < |head + a| ensures !OccursAt(m, t, i) { NoneBefore(text, second, head, a, rest, i); }
      FindAfterPrefix(head + a, rest, m, 0, 0);
    } else {
      FirstShown(text, second, head, a, rest, p);
    }
  }

  lemma NotFoundIsNowhere(a: string, m: string)
    requires Find(a, m, 0) == -1
    ensures !Occurs(m, a)
  {
    hide Find;
    forall at ensures !OccursAt(m, a, at) {
    }
  }

  lemma FirstShown(text: string, key: string, head: string, a: string, rest: string, p: nat)
    requires Word(key) && ArrayText(a) && Find(a, Marker(key), 0) == p
    requires |head| <= Find(text, Marker(key), 0) && |head| <= |text| && head == text[..|head|]
    ensures Find(head + a + rest, Marker(key), 0) == |head| + p
  {
    hide Find, Scan, OccursAt, Marker;
    var m, t := Marker(key), head + (a + rest);
    assert head + a + rest == t;
    MarkerIsThere(m, a, p);
    forall i | 0 <= i < |head| ensures !OccursAt(m, t, i) {
      NoneInHead(text, key, head, a[1..] + rest, i);
      assert t == head + ("[" + (a[1..] + rest));
    }
    FindAfterPrefix(head, a + rest, m, 0, 0);
    assert (a + rest)[..p + |m|] == a[..p + |m|];
    FindIsLocal(a, a + rest, m, 0, p);
  }

  /** The exact condition. In a document's frame filled with any two arrays, the first key
      always leads to the first array; the second key leads to the second array if and
      only if the first array lets it be reached. */
  lemma FilledSpans(text: string, first: string, second: string, a: string, b: string)
    requires Ordered(text, first, second) && Word(second) && ArrayText(a) && ArrayText(b)
    ensures var f := FrameOf(text, first, second);
            var t, s := Fill(f, a, b), |f.head| + |a| + |f.between|;
            && FindSpan(t, first) == Span(|f.head|, |f.head| + |a|)
            && (FindSpan(t, second) == Span(s, s + |b|) <==> KeyReached(a, Before(text, first, second), second))
  {
    hide Find, Marker, ArrayText, OccursAt, Occurs, Word, FindStart, Scan, Before, FrameOf;
    var f, before, m := FrameOf(text, first, second), Before(text, first, second), Marker(second);
    var t, s := Fill(f, a, b), |f.head| + |a| + |f.between|;
    FrameHead(text, first, second);
    FoundInPlace(text, first, a, f.between + b + f.tail);
    assert t == f.head + a + (f.between + b + f.tail);
    var gap, blanks := SecondParts(text, first, second);
    SecondStart(text, first, second, a, b, gap, blanks);
    if FindStart(t, second) == Span(s, s + 1) {
      FoundInPlace(t, second, b, f.tail);
      assert t[..s] == f.head + a + f.between && t[..s] + b + f.tail == t;
    }
  }

  lemma FrameHead(text: string, first: string, second: string)
    requires Ordered(text, first, second)
    ensures FrameOf(text, first, second).head == text[..FindSpan(text, first).start]
    ensures FindStart(text, first).Span? && FindStart(text, first).start == FindSpan(text, first).start
  {
  }

  lemma SecondStart(text: string, first: string, second: string, a: string, b: string, gap: string, blanks: string)
    requires Ordered(text, first, second) && Word(second) && ArrayText(a) && ArrayText(b)
    requires FrameOf(text, first, second).between == Before(text, first, second) + Marker(second) + gap + ":" + blanks
    requires ':' !in gap && AllIn(blanks, BLANKS)
    ensures var f := FrameOf(text, first, second);
            var s := |f.head| + |a| + |f.between|;
            FindStart(Fill(f, a, b), second) == Span(s, s + 1) <==> KeyReached(a, Before(text, first, second), second)
  {
    hide Find, Marker, Before, FrameOf, Ordered, FindStart, Scan, OccursAt;
    var f, before, m := FrameOf(text, first, second), Before(text, first, second), Marker(second);
    var t, p := Fill(f, a, b), Find(a, m, 0);
    FrameHead(text, first, second);
    MarkerIs(text, first, second, a, gap + ":" + blanks + b + f.tail);
    NoColonInMarker(second);
    var n := if p == -1 then |a| else p + |m|;
    Layout(f.head, a, n, before, m, gap, blanks, b, f.tail);
    if p == -1 {
      StartIff(t, second, f.head + a + before + m, gap, blanks, b[1..] + f.tail);
    } else {
      var g := a[n..] + before + m + gap;
      assert ':' in g <==> ':' in a[n..] || ':' in before;
      StartIff(t, second, f.head + a[..n], g, blanks, b[1..] + f.tail);
    }
  }

  lemma NoColonInMarker(key: string)
    requires Word(key)
    ensures ':' !in Marker(key)
  {
  }

  lemma Layout(head: string, a: string, n: nat, before: string, m: string, gap: string, blanks: string, b: string,
               tail: string)
    requires n <= |a| && b != [] && b[0] == '['
    ensures var t := head + a + (before + m + gap + ":" + blanks) + b + tail;
            && t == head + a + (before + m + (gap + ":" + blanks + b + tail))
            && t == (head + a + before + m) + (gap + (":" + (blanks + ("[" + (b[1..] + tail)))))
            && t == (head + a[..n]) + ((a[n..] + before + m + gap) + (":" + (blanks + ("[" + (b[1..] + tail)))))
  {
    assert b == "[" + b[1..] && a == a[..n] + a[n..];
    var rest := ":" + (blanks + ("[" + (b[1..] + tail)));
    assert ":" + blanks + b + tail == rest;
    assert gap + ":" + blanks + b + tail == gap + rest;
    assert head + a + (before + m + gap + ":" + blanks) + b + tail == head + a + before + m + gap + rest;
  }

  // ------------------------------------------------------------ the patch laws

  predicate Shifted(now: SpanResult, was: SpanResult, n: int) {
    now.Span? && was.Span? && now.start == was.start + n && now.end == was.end + n
  }

  /** One replacement: the second key's span has merely moved if and only if the new array
      lets the key be reached. */
  lemma SecondMovesIff(text: string, first: string, second: string, a: string)
    requires Ordered(text, first, second) && Word(second) && ArrayText(a)
    ensures var x, y := FindSpan(text, first), FindSpan(text, second);
            Shifted(FindSpan(text[..x.start] + a + text[x.end..], second), y, |a| - (x.end - x.start))
            <==> KeyReached(a, Before(text, first, second), second)
  {
    hide Find, FindSpan, ArrayText, KeyReached, Marker;
    var x, y, f := FindSpan(text, first), FindSpan(text, second), FrameOf(text, first, second);
    SpanFollowsKey(text, second);
    var own, b := OwnArrays(text, first, second);
    FilledSpans(text, first, second, own, b);
    FilledSpans(text, first, second, a, b);
    assert text[..x.start] + a + text[x.end..] == Fill(f, a, b) by {
      assert text[x.end..] == f.between + b + f.tail by { OwnTail(text, first, second, own, b); }
      assert f.head + a + (f.between + b + f.tail) == Fill(f, a, b);
    }
  }

  lemma OwnTail(text: string, first: string, second: string, own: string, b: string)
    requires Ordered(text, first, second) && text == Fill(FrameOf(text, first, second), own, b)
    requires FindSpan(text, first) == Span(|FrameOf(text, first, second).head|,
                                           |FrameOf(text, first, second).head| + |own|)
    ensures var f := FrameOf(text, first, second);
            text[FindSpan(text, first).end..] == f.between + b + f.tail
  {
    hide FindSpan, FrameOf, Ordered;
    var f := FrameOf(text, first, second);
    assert text == (f.head + own) + (f.between + b + f.tail);
  }

  /** The first array of a filled frame is replaced whatever it and the new one hold. */
  lemma RefillFirst(text: string, first: string, second: string, a: string, b: string, a': string)
    requires Ordered(text, first, second) && Word(second) && ArrayText(a) && ArrayText(b)
    ensures var f := FrameOf(text, first, second);
            Splice(Fill(f, a, b), first, a') == Patched(Fill(f, a', b))
  {
    hide FrameOf, FindSpan, ArrayText, Ordered, Word;
    FilledSpans(text, first, second, a, b);
    var f := FrameOf(text, first, second);
    CutOut(f.head, a, f.between + b + f.tail);
    assert Fill(f, a, b) == f.head + a + (f.between + b + f.tail);
    assert Fill(f, a', b) == f.head + a' + (f.between + b + f.tail);
  }

  /** The second array is, as long as the first lets the key be reached. */
  lemma RefillSecond(text: string, first: string, second: string, a: string, b: string, b': string)
    requires Ordered(text, first, second) && Word(second) && ArrayText(a) && ArrayText(b)
    requires KeyReached(a, Before(text, first, second), second)
    ensures var f := FrameOf(text, first, second);
            Splice(Fill(f, a, b), second, b') == Patched(Fill(f, a, b'))
  {
    hide FrameOf, FindSpan, ArrayText, Ordered, Word, KeyReached, Before;
    FilledSpans(text, first, second, a, b);
    var f := FrameOf(text, first, second);
    CutOut(f.head + a + f.between, b, f.tail);
  }

  lemma CutOut(x: string, y: string, z: string)
    ensures (x + y + z)[..|x|] == x && (x + y + z)[|x + y|..] == z
  {
  }

  /** What the matcher finds is array text. */
  lemma OwnIsArray(text: string, key: string)
    requires FindSpan(text, key).Span?
    ensures ArrayText(text[FindSpan(text, key).start..FindSpan(text, key).end])
  {
    hide FindStart, Scan;
    var x := FindSpan(text, key);
    var t, n := text[x.start..], x.end - x.start;
    ScanIsLocal(t, START);
    ClosesOnBracket(t, START);
    assert t[..n] == text[x.start..x.end] && t[0] == text[x.start];
  }

  lemma {:induction false} ClosesOnBracket(t: string, st: State)
    requires Scan(t, st).Closed?
    ensures t[Scan(t, st).count - 1] == ']'
  {
    if !Closes(st, t[0]) { ClosesOnBracket(t[1..], Advance(st, t[0])); }
  }

  /** The two layouts a document with these keys can have. */
  predicate HoldsBoth(text: string, k1: string, k2: string) { Ordered(text, k1, k2) || Ordered(text, k2, k1) }

  /** The document with its two arrays replaced, and nothing else. */
  function Filled(text: string, k1: string, k2: string, a: string, b: string): string
    requires HoldsBoth(text, k1, k2)
  {
    if Ordered(text, k1, k2) then Fill(FrameOf(text, k1, k2), a, b) else Fill(FrameOf(text, k2, k1), b, a)
  }

  /** With these arrays in the document, the array that stands first lets the other key be
      reached. */
  predicate Reaches(text: string, k1: string, k2: string, a: string, b: string)
    requires HoldsBoth(text, k1, k2)
  {
    if Ordered(text, k1, k2) then KeyReached(a, Before(text, k1, k2), k2)
    else KeyReached(b, Before(text, k2, k1), k1)
  }

  /** On values: it is enough that no string or member name of the array that stands first
      equals the other key or ends in a quote followed by it. */
  lemma CleanReaches(text: string, k1: string, k2: string, items1: seq<Json>, items2: seq<Json>)
    requires HoldsBoth(text, k1, k2) && Word(k1) && Word(k2)
    requires if Ordered(text, k1, k2) then !SomeShows(Strings(Arr(items1)), k2)
             else !SomeShows(Strings(Arr(items2)), k1)
    ensures Reaches(text, k1, k2, ArrayOf(items1), ArrayOf(items2))
  {
    hide ArrayOf, Ordered, Word, Occurs, Before, KeyReached, Strings;
    if Ordered(text, k1, k2) {
      ArrayOfShows(items1, k2);
      NotShownIsReached(ArrayOf(items1), Before(text, k1, k2), k2);
    } else {
      ArrayOfShows(items2, k1);
      NotShownIsReached(ArrayOf(items2), Before(text, k2, k1), k1);
    }
  }

  lemma PatchIsTwoSplices(text: string, p: Payload, k1: string, k2: string)
    requires k1 in p && k2 in p
    ensures PatchKeys(text, p, [k1, k2]) ==
            match Splice(text, k1, ArrayOf(p[k1]))
            case Refused(x) => Refused(x)
            case Patched(t) => Splice(t, k2, ArrayOf(p[k2]))
  {
    hide Splice, ArrayOf;
    assert [k1, k2][1..] == [k2];
    var first := Splice(text, k1, ArrayOf(p[k1]));
    if first.Patched? { PatchOne(first.text, p, k2); }
  }

  lemma PatchOne(text: string, p: Payload, key: string)
    requires key in p
    ensures PatchKeys(text, p, [key]) == Splice(text, key, ArrayOf(p[key]))
  {
    hide Splice, ArrayOf;
    assert [key][1..] == [];
  }

  /** A patch of a filled frame whose first array lets the second key be reached: the two
      arrays are replaced, in whichever order the keys are processed. */
  lemma PatchFilled(text: string, first: string, second: string, a: string, b: string, a': string, b': string)
    requires Ordered(text, first, second) && Word(second)
    requires ArrayText(a) && ArrayText(b) && ArrayText(a') && ArrayText(b')
    ensures var f, before := FrameOf(text, first, second), Before(text, first, second);
            var t := Fill(f, a, b);
            && Splice(t, first, a') == Patched(Fill(f, a', b))
            && (KeyReached(a', before, second) ==> Splice(Fill(f, a', b), second, b') == Patched(Fill(f, a', b')))
            && (KeyReached(a, before, second) ==>
                  Splice(t, second, b') == Patched(Fill(f, a, b'))
                  && Splice(Fill(f, a, b'), first, a') == Patched(Fill(f, a', b')))
  {
    hide FrameOf, Fill, Splice, Before, ArrayText, Ordered, Word, KeyReached;
    RefillFirst(text, first, second, a, b, a');
    if KeyReached(a', Before(text, first, second), second) { RefillSecond(text, first, second, a', b, b'); }
    if KeyReached(a, Before(text, first, second), second) {
      RefillSecond(text, first, second, a, b, b');
      RefillFirst(text, first, second, a, b', a');
    }
  }

  /** The document's own two arrays fill its frame and let the second key be reached. */
  lemma OwnArrays(text: string, first: string, second: string) returns (a: string, b: string)
    requires Ordered(text, first, second)
    ensures ArrayText(a) && ArrayText(b) && text == Fill(FrameOf(text, first, second), a, b)
    ensures KeyReached(a, Before(text, first, second), second)
  {
    hide Find, OccursAt, Marker, FindSpan, ArrayText;
    SpanFollowsKey(text, second);
    var x, y, m := FindSpan(text, first), FindSpan(text, second), Marker(second);
    a, b := text[x.start..x.end], text[y.start..y.end];
    OwnIsArray(text, first);
    OwnIsArray(text, second);
    FrameFills(text, first, second);
    assert m != [] by { MarkerIsLong(second); }
    if p :| OccursAt(m, a, p) {
      NotThisEarly(text, m, x.start, x.end, p);
    }
    NotShownIsReached(a, Before(text, first, second), second);
  }

  lemma MarkerIsLong(key: string)
    ensures |Marker(key)| == |key| + 2
  {
  }

  lemma NotThisEarly(text: string, m: string, s: nat, e: nat, p: int)
    requires s <= e <= |text| && OccursAt(m, text[s..e], p) && m != []
    ensures 0 <= Find(text, m, 0) < e
  {
    hide Find;
    assert text[s..e][p..p + |m|] == text[s + p..s + p + |m|] by { SubSlice(text, s, e, p, p + |m|); }
    assert OccursAt(m, text, s + p);
  }

  lemma SubSlice(text: string, s: nat, e: nat, i: nat, j: nat)
    requires s <= e <= |text| && i <= j <= e - s
    ensures text[s..e][i..j] == text[s + i..s + j]
  {
    var w := text[s..e];
    assert forall k :: i <= k < j ==> w[k] == text[s + k];
  }

  /** Patching replaces the two arrays and nothing else: the result is the document's own
      frame filled with the new arrays. When the member processed first also stands first,
      its new array must let the other key be reached; otherwise nothing is asked. */
  lemma PatchFrames(text: string, p: Payload, k1: string, k2: string)
    requires HoldsBoth(text, k1, k2) && k1 in p && k2 in p && Word(k1) && Word(k2)
    requires Ordered(text, k1, k2) ==> Reaches(text, k1, k2, ArrayOf(p[k1]), ArrayOf(p[k2]))
    ensures PatchKeys(text, p, [k1, k2]) == Patched(Filled(text, k1, k2, ArrayOf(p[k1]), ArrayOf(p[k2])))
  {
    hide ArrayOf, Ordered, Word, ArrayText, FrameOf, Fill, Splice, Before, KeyReached, PatchKeys;
    var a, b := ArrayOf(p[k1]), ArrayOf(p[k2]);
    ArrayOfIsArray(p[k1]);
    ArrayOfIsArray(p[k2]);
    PatchIsTwoSplices(text, p, k1, k2);
    if Ordered(text, k1, k2) {
      var x, y := OwnArrays(text, k1, k2);
      PatchFilled(text, k1, k2, x, y, a, b);
    } else {
      var x, y := OwnArrays(text, k2, k1);
      PatchFilled(text, k2, k1, x, y, b, a);
    }
  }

  /** Re-finding the keys in the patched document yields exactly the two new arrays if and
      only if the array that stands first lets the other key be reached. */
  lemma PatchedIsFound(text: string, p: Payload, k1: string, k2: string)
    requires HoldsBoth(text, k1, k2) && k1 in p && k2 in p && Word(k1) && Word(k2)
    ensures var a, b := ArrayOf(p[k1]), ArrayOf(p[k2]);
            var t := Filled(text, k1, k2, a, b);
            var straight := Ordered(text, k1, k2);
            var f := if straight then FrameOf(text, k1, k2) else FrameOf(text, k2, k1);
            var i := |if straight then f.head else f.head + b + f.between|;
            var j := |if straight then f.head + a + f.between else f.head|;
            && t[i..i + |a|] == a && t[j..j + |b|] == b
            && (FindSpan(t, k1) == Span(i, i + |a|) && FindSpan(t, k2) == Span(j, j + |b|)
                <==> Reaches(text, k1, k2, a, b))
  {
    hide ArrayOf, Word, ArrayText, FrameOf, FindSpan, Before, KeyReached, Ordered;
    var a, b := ArrayOf(p[k1]), ArrayOf(p[k2]);
    ArrayOfIsArray(p[k1]);
    ArrayOfIsArray(p[k2]);
    if Ordered(text, k1, k2) {
      FilledSpans(text, k1, k2, a, b);
      var f := FrameOf(text, k1, k2);
      Positions(f.head, a, f.between, b, f.tail);
    } else {
      FilledSpans(text, k2, k1, b, a);
      var f := FrameOf(text, k2, k1);
      Positions(f.head, b, f.between, a, f.tail);
    }
  }

  /** On values: after patching, the text at each of the two keys denotes exactly the
      payload's list, when the array that stands first lets the other key be reached. */
  lemma PatchedDenotes(text: string, p: Payload, k1: string, k2: string)
    requires HoldsBoth(text, k1, k2) && k1 in p && k2 in p && Word(k1) && Word(k2)
    requires Reaches(text, k1, k2, ArrayOf(p[k1]), ArrayOf(p[k2]))
    ensures var r := PatchKeys(text, p, [k1, k2]);
            && r.Patched? && ValueAt(r.text, k1) == Some(Arr(p[k1])) && ValueAt(r.text, k2) == Some(Arr(p[k2]))
  {
    hide ArrayOf, Word, FindSpan, HoldsBoth, Reaches, PatchKeys, JsonReader.Denotes, Filled;
    PatchFrames(text, p, k1, k2);
    PatchedIsFound(text, p, k1, k2);
    ArrayOfDenotes(p[k1]);
    ArrayOfDenotes(p[k2]);
  }

  lemma Positions(head: string, a: string, between: string, b: string, tail: string)
    ensures var t := head + a + between + b + tail;
            && t[|head|..|head| + |a|] == a
            && t[|head + a + between|..|head + a + between| + |b|] == b
  {
    assert head + a + between + b + tail == head + a + (between + b + tail);
  }

  /** Last write wins, hence patching is idempotent: the first payload's arrays must let
      the later key be reached for the second patch to find it, and the second's for its
      own second splice when the keys are processed in the order they stand. */
  lemma PatchLastWins(text: string, p1: Payload, p2: Payload, k1: string, k2: string)
    requires HoldsBoth(text, k1, k2) && Word(k1) && Word(k2)
    requires k1 in p1 && k2 in p1 && k1 in p2 && k2 in p2
    requires Reaches(text, k1, k2, ArrayOf(p1[k1]), ArrayOf(p1[k2]))
    requires Ordered(text, k1, k2) ==> Reaches(text, k1, k2, ArrayOf(p2[k1]), ArrayOf(p2[k2]))
    ensures PatchKeys(text, p1, [k1, k2]).Patched?
    ensures PatchKeys(PatchKeys(text, p1, [k1, k2]).text, p2, [k1, k2]) == PatchKeys(text, p2, [k1, k2])
  {
    hide ArrayOf, Ordered, Word, ArrayText, FrameOf, Fill, Splice, Before, KeyReached, PatchKeys;
    var a, b, a', b' := ArrayOf(p1[k1]), ArrayOf(p1[k2]), ArrayOf(p2[k1]), ArrayOf(p2[k2]);
    ArrayOfIsArray(p1[k1]);
    ArrayOfIsArray(p1[k2]);
    ArrayOfIsArray(p2[k1]);
    ArrayOfIsArray(p2[k2]);
    PatchFrames(text, p1, k1, k2);
    PatchFrames(text, p2, k1, k2);
    PatchIsTwoSplices(Filled(text, k1, k2, a, b), p2, k1, k2);
    if Ordered(text, k1, k2) {
      PatchFilled(text, k1, k2, a, b, a', b');
    } else {
      PatchFilled(text, k2, k1, b, a, b', a');
    }
  }

  // ------------------------------------------- why the payload must be clean

  const OPEN := "[\n  {\n    "
  const CLOSE := "\n  }\n]"

  /** The mapper list `[{key: []}]`, printed. */
  function Decoy(key: string): seq<Json> { [Obj([(key, Arr([]))])] }

  lemma DecoyText(key: string)
    requires Word(key)
    ensures ArrayOf(Decoy(key)) == OPEN + Marker(key) + ":" + " " + "[]" + CLOSE
  {
    hide EscapeAscii, Quote, Word, Marker;
    var member := (key, Arr([]));
    LinePrefixes();
    QuoteWord(key);
    DecoyMember(key);
    assert DumpMembers(PYTHON, [member], 2) == DumpMember(PYTHON, member, 2);
    assert Dumps(PYTHON, Obj([member]), 1) == "{" + "\n    " + DumpMember(PYTHON, member, 2) + "\n  " + "}";
    assert DumpItems(PYTHON, [Obj([member])], 1) == Dumps(PYTHON, Obj([member]), 1);
  }

  lemma DecoyMember(key: string)
    requires Quote(EscapeAscii, key) == Marker(key)
    ensures DumpMember(PYTHON, (key, Arr([])), 2) == Marker(key) + ":" + " " + "[]"
  {
    hide EscapeAscii, Quote, Marker;
  }

  lemma QuoteWord(key: string)
    requires Word(key)
    ensures Quote(EscapeAscii, key) == Marker(key)
  {
    hide EscapeAscii;
    PythonIsValid();
    EscapePlain(EscapeAscii, key);
  }

  lemma LinePrefixes()
    ensures PYTHON.newline(0) == "\n" && PYTHON.newline(1) == "\n  " && PYTHON.newline(2) == "\n    "
  {
    assert Spaces(2) == " " + Spaces(1) && Spaces(4) == " " + Spaces(3) && Spaces(3) == " " + Spaces(2);
  }

  /** The decoy hides its key: a colon follows the marker at once. */
  lemma DecoyHides(key: string, before: string)
    requires Word(key)
    ensures !KeyReached(ArrayOf(Decoy(key)), before, key)
  {
    DecoyText(key);
    hide Find, ArrayOf, Decoy, Word;
    var a, m := ArrayOf(Decoy(key)), Marker(key);
    assert a == OPEN + m + (":" + " " + "[]" + CLOSE);
    assert OPEN + m + (":" + " " + "[]" + CLOSE) == OPEN + (m + (":" + " " + "[]" + CLOSE));
    assert (m + (":" + " " + "[]" + CLOSE))[..|m|] == m && OccursAt(m, m + (":" + " " + "[]" + CLOSE), 0);
    OccursAfterPrefix(m, OPEN, m + (":" + " " + "[]" + CLOSE), 0);
    var p := Find(a, m, 0);
    assert 0 <= p <= |OPEN|;
    assert a[|OPEN| + |m|] == ':';
    assert a[p + |m|..][|OPEN| - p] == a[|OPEN| + |m|];
  }

  lemma FirstAfter(text: string, key: string, head: string, open: string, rest: string)
    requires Word(key) && |head| <= |text| && head == text[..|head|] && |head| <= Find(text, Marker(key), 0)
    requires open != [] && open[0] == '[' && '\"' !in open
    ensures Find(head + open + Marker(key) + rest, Marker(key), 0) == |head + open|
  {
    var m := Marker(key);
    var t := head + open + m + rest;
    assert t[|head + open|..|head + open| + |m|] == m;
    assert OccursAt(m, t, |head + open|);
    forall i | 0 <= i < |head + open| ensures !OccursAt(m, t, i) {
      NoneAt(text, key, head, open, m + rest, i);
      assert t == head + open + (m + rest);
    }
    hide Find, OccursAt;
  }

  lemma NoneAt(text: string, key: string, head: string, open: string, rest: string, i: nat)
    requires Word(key) && |head| <= |text| && head == text[..|head|] && |head| <= Find(text, Marker(key), 0)
    requires open != [] && open[0] == '[' && '\"' !in open && i < |head + open|
    ensures !OccursAt(Marker(key), head + open + rest, i)
  {
    hide Find, OccursAt, Marker;
    if i < |head| {
      NoneInHead(text, key, head, open[1..] + rest, i);
      Reopened(head, open, rest);
    } else {
      NoQuoteAt(key, head, open, rest, i);
    }
  }

  lemma Reopened(head: string, open: string, rest: string)
    requires open != [] && open[0] == '['
    ensures head + open + rest == head + ("[" + (open[1..] + rest))
  {
    assert open == "[" + open[1..];
  }

  lemma NoQuoteAt(key: string, head: string, open: string, rest: string, i: nat)
    requires '\"' !in open && |head| <= i < |head + open|
    ensures !OccursAt(Marker(key), head + open + rest, i)
  {
    hide OccursAt;
    assert (head + open + rest)[i] == open[i - |head|];
    assert open[i - |head|] in open;
    WrongFirst(Marker(key), head + open + rest, i);
  }

  lemma WrongFirst(m: string, t: string, i: nat)
    requires m != [] && i < |t| && t[i] != m[0]
    ensures !OccursAt(m, t, i)
  {
    assert i + |m| <= |t| ==> t[i..i + |m|][0] == t[i];
  }

  lemma DecoyPatch(text: string, k1: string, k2: string, items: seq<Json>)
    requires Ordered(text, k1, k2) && Word(k2)
    ensures var x := FindSpan(text, k1);
            match Splice(text, k1, ArrayOf(Decoy(k2)))
            case Refused(_) => false
            case Patched(t) =>
              Splice(t, k2, ArrayOf(items)) ==
              Patched(text[..x.start] + OPEN + Marker(k2) + ":" + " " + ArrayOf(items) + (CLOSE + text[x.end..]))
  {
    hide FindSpan, Find, ArrayOf, Dumps, Word, ValidPrinter, Decoy, Marker;
    var x := FindSpan(text, k1);
    var head, rest := text[..x.start], CLOSE + text[x.end..];
    hide Splice;
    DecoyText(k2);
    DecoyPlaced(head, OPEN, Marker(k2), CLOSE, text[x.end..]);
    DecoySpan(text, k2, head, rest);
    Spliced(text, k1, ArrayOf(Decoy(k2)));
    Spliced(Splice(text, k1, ArrayOf(Decoy(k2))).text, k2, ArrayOf(items));
  }

  lemma Spliced(text: string, key: string, a: string)
    requires FindSpan(text, key).Span?
    ensures Splice(text, key, a) == Patched(text[..FindSpan(text, key).start] + a + text[FindSpan(text, key).end..])
  {
    hide FindSpan;
  }

  /** Where the decoy's own member leads. */
  lemma DecoySpan(text: string, key: string, head: string, rest: string)
    requires Word(key) && |head| <= |text| && head == text[..|head|] && |head| <= Find(text, Marker(key), 0)
    ensures var s := |head + OPEN| + |Marker(key)| + 2;
            FindSpan(head + OPEN + Marker(key) + "" + ":" + " " + "[]" + rest, key) == Span(s, s + 2)
  {
    hide FindSpan, Find, Dumps, Word, ValidPrinter, Marker;
    var m, pre := Marker(key), head + OPEN;
    FirstAfter(text, key, head, OPEN, ":" + " " + "[]" + rest);
    assert pre + m + (":" + " " + "[]" + rest) == pre + m + "" + ":" + " " + "[]" + rest by {
      DecoyPlaced(head, OPEN, m, "", rest);
    }
    EmptyArray(2);
    PythonIsValid();
    SpanOfPrinted(PYTHON, [], 2, key, pre, "", " ", rest);
  }

  /** Without that condition the patch goes wrong on every document that holds `k1` first:
      an entry with a member named `k2` draws the second list into the first array, and the
      document's own `k2` array, inside the kept text, stays as it was. */
  lemma UncleanPayloadMisplaces(text: string, k1: string, k2: string, items: seq<Json>)
    requires Ordered(text, k1, k2) && Word(k2) && k1 != k2
    ensures var p: Payload := map[k1 := Decoy(k2), k2 := items];
            var x := FindSpan(text, k1);
            && !Reaches(text, k1, k2, ArrayOf(p[k1]), ArrayOf(p[k2]))
            && PatchKeys(text, p, [k1, k2]) ==
               Patched(text[..x.start] + OPEN + Marker(k2) + ":" + " " + ArrayOf(items) + (CLOSE + text[x.end..]))
  {
    hide FindSpan, ArrayOf, Decoy, Splice, Word, Marker, KeyReached, Before, Ordered, PatchKeys;
    var p: Payload := map[k1 := Decoy(k2), k2 := items];
    DecoyHides(k2, Before(text, k1, k2));
    PatchIsTwoSplices(text, p, k1, k2);
    DecoyPatch(text, k1, k2, items);
  }

  /** The decoy's text around its inner array, in the two shapes used above. */
  lemma DecoyPlaced(head: string, open: string, m: string, close: string, tail: string)
    ensures var rest := close + tail;
            var t := head + open + m + "" + ":" + " " + "[]" + rest;
            var s := |head + open| + |m| + 2;
            && head + (open + m + ":" + " " + "[]" + close) + tail == t
            && t == head + open + m + (":" + " " + "[]" + rest)
            && t[..s] == head + open + m + ":" + " " && t[s + 2..] == rest
  {
    var before, rest := head + open + m + ":" + " ", close + tail;
    var t := before + "[]" + rest;
    assert m + "" == m;
    assert head + (open + m + ":" + " " + "[]" + close) + tail == t;
    assert head + open + m + (":" + " " + "[]" + rest) == t;
    assert t[..|before|] == before && t[|before + "[]"|..] == rest;
  }

  lemma EmptyArray(level: nat)
    ensures Dumps(PYTHON, Arr([]), level) == "[]"
  {
  }
}

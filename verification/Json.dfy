/** JSON values and Python's `json.dumps`, for any uniform layout and any string escape.
    The array and string grammars are those of sections 5 and 7 of RFC 8259. */
module Json {
  import opened Text
  import Lists

  const BLANKS := " \t\r\n"

  // ---------------------------------------------------------------- numbers

  predicate IsDigit(c: char) { '0' <= c <= '9' }

  /** How many digits `s` starts with. */
  function Digits(s: string): (n: nat)
    ensures n <= |s| && forall i :: 0 <= i < n ==> IsDigit(s[i])
  {
    if s == [] || !IsDigit(s[0]) then 0 else 1 + Digits(s[1..])
  }

  /** Section 6 of RFC 8259: an integer without leading zeros, a fraction, an exponent. */
  predicate IsNumber(s: string) {
    var u := if s != [] && s[0] == '-' then s[1..] else s;
    var n := Digits(u);
    n > 0 && (u[0] == '0' ==> n == 1) && IsFraction(u[n..])
  }

  predicate IsFraction(s: string) {
    if s != [] && s[0] == '.' then Digits(s[1..]) > 0 && IsExponent(s[1 + Digits(s[1..])..]) else IsExponent(s)
  }

  predicate IsExponent(s: string) {
    s == [] ||
    (s[0] in "eE" &&
     var t := if |s| > 1 && s[1] in "+-" then s[2..] else s[1..];
     t != [] && Digits(t) == |t|)
  }

  /** A number as Python prints it: of that grammar, or one of the three names that are not. */
  type Numeral = s: string | IsNumber(s) || s in ["NaN", "Infinity", "-Infinity"] witness ZeroIsNumber()

  function ZeroIsNumber(): (s: string)
    ensures IsNumber(s)
  {
    assert Digits("0") == 1 && "0"[1..] == "";
    "0"
  }

  predicate InNumeral(c: char) {
    IsDigit(c) || c == '+' || c == '-' || c == '.' || c == 'e' || c == 'E' || c == 'N' || c == 'a' || c == 'I' ||
    c == 'n' || c == 'f' || c == 'i' || c == 't' || c == 'y'
  }

  predicate AllNumeral(s: string) { forall i :: 0 <= i < |s| ==> InNumeral(s[i]) }

  lemma NumeralChars(s: Numeral)
    ensures s != [] && AllNumeral(s)
  {
    if IsNumber(s) { NumberChars(s); }
  }

  lemma NumberChars(s: string)
    requires IsNumber(s)
    ensures s != [] && AllNumeral(s)
  {
    hide IsFraction, AllNumeral;
    var k := if s[0] == '-' then 1 else 0;
    var n := k + Digits(s[k..]);
    FractionChars(s[n..]);
    LeadChars(s, k);
    Halves(s, n);
  }

  /** A sign and the digits after it. */
  lemma LeadChars(s: string, k: nat)
    requires s != [] && k == if s[0] == '-' then 1 else 0
    ensures k + Digits(s[k..]) <= |s| && AllNumeral(s[..k + Digits(s[k..])])
  {
    var n := Digits(s[k..]);
    hide Digits;
    forall i | k <= i < k + n ensures IsDigit(s[i]) { assert s[k..][i - k] == s[i]; }
  }

  lemma Halves(s: string, n: nat)
    requires n <= |s| && AllNumeral(s[..n]) && AllNumeral(s[n..])
    ensures AllNumeral(s)
  {
    hide InNumeral;
    forall i | 0 <= i < |s| ensures InNumeral(s[i]) {
      assert s[i] == if i < n then s[..n][i] else s[n..][i - n];
    }
  }

  lemma FractionChars(s: string)
    requires IsFraction(s)
    ensures AllNumeral(s)
  {
    hide IsExponent, AllNumeral;
    if s != [] && s[0] == '.' {
      var n := 1 + Digits(s[1..]);
      ExponentChars(s[n..]);
      PointChars(s);
      Halves(s, n);
    } else {
      ExponentChars(s);
    }
  }

  /** A character of a number and the digits after it. */
  lemma PointChars(s: string)
    requires s != [] && InNumeral(s[0])
    ensures AllNumeral(s[..1 + Digits(s[1..])])
  {
    var n := Digits(s[1..]);
    hide Digits, InNumeral;
    forall i | 1 <= i < 1 + n ensures IsDigit(s[i]) { assert s[1..][i - 1] == s[i]; }
    DigitsAreNumeral();
  }

  lemma DigitsAreNumeral()
    ensures forall c :: IsDigit(c) ==> InNumeral(c)
  {
  }

  lemma ExponentChars(s: string)
    requires IsExponent(s)
    ensures AllNumeral(s)
  {
    if s != [] {
      var k := if |s| > 1 && s[1] in "+-" then 2 else 1;
      var t := s[k..];
      assert Digits(t) == |t|;
      hide Digits;
      assert AllNumeral(t) by { DigitsAreNumeral(); }
      Halves(s, k);
    }
  }

  /** The number is zero: no digit before the exponent is another. */
  predicate IsZero(s: Numeral) {
    '0' in s && forall i :: 0 <= i < |s| && '1' <= s[i] <= '9' ==> 'e' in s[..i] || 'E' in s[..i]
  }

  // ----------------------------------------------------------------- values

  datatype Json =
    | Null
    | Bool(b: bool)
    | Number(numeral: Numeral)
    | Str(s: string)
    | Arr(items: seq<Json>)
    | Obj(members: seq<(string, Json)>)     // insertion order of a Python dict

  /** Python's truth value. */
  predicate Truthy(v: Json) {
    match v
    case Null => false
    case Bool(b) => b
    case Number(numeral) => !IsZero(numeral)
    case Str(s) => s != []
    case Arr(items) => items != []
    case Obj(members) => members != []
  }

  /** The values Python takes as false. */
  lemma FalsyIff(v: Json)
    ensures !Truthy(v) <==>
            v in {Null, Bool(false), Str(""), Arr([]), Obj([])} || (v.Number? && IsZero(v.numeral))
  {
  }

  // ---------------------------------------------------------------- strings

  predicate Printable(c: char) { ' ' <= c <= '~' && c != '\"' && c != '\\' }

  /** The body of a string literal: every backslash is followed by what it escapes, and
      no quote stands unescaped. */
  predicate LiteralBody(s: string) {
    s == [] ||
    (s[0] != '\"' && s[0] != '\\' && LiteralBody(s[1..])) ||
    (s[0] == '\\' && |s| >= 2 && LiteralBody(s[2..]))
  }

  predicate Ascii(s: string) { forall i :: 0 <= i < |s| ==> ' ' <= s[i] <= '~' }

  /** What the proofs need of a string escape: printable ASCII stands for itself, and
      everything else is either itself or a complete escape sequence. */
  predicate EscapesWell(f: char -> string, c: char) {
    && (Printable(c) ==> f(c) == [c])
    && (f(c) == [c] || (|f(c)| >= 2 && f(c)[0] == '\\'))
    && LiteralBody(f(c))
    && (c == '\"' ==> f(c) == "\\\"")
    && (c != '\"' ==> '\"' !in f(c))
  }

  function HexDigit(n: nat): (c: char)
    requires n < 16
    ensures Printable(c)
  {
    "0123456789abcdef"[n]
  }

  function UnicodeEscape(n: nat): (s: string)
    requires n < 0x10000
    ensures |s| == 6 && s[0] == '\\' && s[1] == 'u' && Ascii(s)
    ensures forall i :: 2 <= i < 6 ==> Printable(s[i])
  {
    ['\\', 'u', HexDigit(n / 4096), HexDigit(n / 256 % 16), HexDigit(n / 16 % 16), HexDigit(n % 16)]
  }

  /** The escape of `ensure_ascii=True`; astral characters become a surrogate pair. */
  function EscapeAscii(c: char): string {
    if c == '\"' then "\\\""
    else if c == '\\' then "\\\\"
    else if c == '\n' then "\\n"
    else if c == '\r' then "\\r"
    else if c == '\t' then "\\t"
    else if c == 12 as char then "\\f"
    else if c == 8 as char then "\\b"
    else if ' ' <= c <= '~' then [c]
    else if c as int < 0x10000 then UnicodeEscape(c as int)
    else
      var v := c as int - 0x10000;
      UnicodeEscape(0xd800 + v / 1024 % 1024) + UnicodeEscape(0xdc00 + v % 1024)
  }

  function EscapeText(f: char -> string, s: string): string {
    if s == [] then [] else f(s[0]) + EscapeText(f, s[1..])
  }

  function Quote(f: char -> string, s: string): string { "\"" + EscapeText(f, s) + "\"" }

  lemma {:induction false} LiteralBodyConcat(a: string, b: string)
    requires LiteralBody(a) && LiteralBody(b)
    ensures LiteralBody(a + b)
  {
    if a == [] {
      assert a + b == b;
    } else if a[0] == '\\' {
      LiteralBodyConcat(a[2..], b);
      assert (a + b)[2..] == a[2..] + b;
    } else {
      LiteralBodyConcat(a[1..], b);
      assert (a + b)[1..] == a[1..] + b;
    }
  }

  lemma PlainBody(s: string)
    requires forall i :: 0 <= i < |s| ==> Printable(s[i])
    ensures LiteralBody(s)
  {
  }

  lemma UnicodeEscapeIsBody(n: nat)
    requires n < 0x10000
    ensures LiteralBody(UnicodeEscape(n)) && '\"' !in UnicodeEscape(n)
  {
    PlainBody(UnicodeEscape(n)[2..]);
  }

  lemma EscapeAsciiIsGood(c: char)
    ensures EscapesWell(EscapeAscii, c) && Ascii(EscapeAscii(c))
  {
    if c as int >= 0x10000 {
      AstralIsGood(c);
    } else if EscapeAscii(c) == UnicodeEscape(c as int) {
      UnicodeEscapeIsBody(c as int);
    } else {
      assert EscapeAscii(c) == [c] || (|EscapeAscii(c)| == 2 && EscapeAscii(c)[2..] == []);
    }
  }

  lemma AstralIsGood(c: char)
    requires c as int >= 0x10000
    ensures EscapesWell(EscapeAscii, c) && Ascii(EscapeAscii(c))
  {
    hide UnicodeEscape, LiteralBody;
    var v := c as int - 0x10000;
    var hi, lo := UnicodeEscape(0xd800 + v / 1024 % 1024), UnicodeEscape(0xdc00 + v % 1024);
    UnicodeEscapeIsBody(0xd800 + v / 1024 % 1024);
    UnicodeEscapeIsBody(0xdc00 + v % 1024);
    LiteralBodyConcat(hi, lo);
    assert EscapeAscii(c) == hi + lo;
  }

  lemma EscapeCons(f: char -> string, s: string)
    requires s != []
    ensures EscapeText(f, s) == f(s[0]) + EscapeText(f, s[1..])
  {
  }

  lemma {:induction false} EscapeConcat(f: char -> string, a: string, b: string)
    ensures EscapeText(f, a + b) == EscapeText(f, a) + EscapeText(f, b)
  {
    if a == [] {
      assert a + b == b;
    } else {
      hide EscapeText;
      EscapeConcat(f, a[1..], b);
      assert (a + b)[1..] == a[1..] + b && (a + b)[0] == a[0];
      EscapeCons(f, a);
      EscapeCons(f, a + b);
      Lists.Associates(f(a[0]), EscapeText(f, a[1..]), EscapeText(f, b));
    }
  }

  lemma {:induction false} EscapedIsBody(f: char -> string, s: string)
    requires forall c :: EscapesWell(f, c)
    ensures LiteralBody(EscapeText(f, s))
  {
    if s != [] {
      assert EscapesWell(f, s[0]);
      EscapedIsBody(f, s[1..]);
      LiteralBodyConcat(f(s[0]), EscapeText(f, s[1..]));
    }
  }

  lemma {:induction false} EscapePlain(f: char -> string, s: string)
    requires forall c :: EscapesWell(f, c)
    ensures (forall i :: 0 <= i < |s| ==> Printable(s[i])) ==> EscapeText(f, s) == s
    ensures '\\' !in EscapeText(f, s) ==> EscapeText(f, s) == s
  {
    if s != [] {
      EscapePlain(f, s[1..]);
      var head, rest := f(s[0]), EscapeText(f, s[1..]);
      assert EscapesWell(f, s[0]);
      assert s == [s[0]] + s[1..];
      assert '\\' in rest ==> '\\' in EscapeText(f, s);
      if head != [s[0]] {
        assert EscapeText(f, s)[0] == '\\';
      }
    }
  }

  /** A quote in an escaped text is the escape of a quote: it follows a backslash, and
      what comes after it is the escape of what came after that quote. */
  lemma {:induction false} EscapedQuote(f: char -> string, s: string, p: nat) returns (i: nat)
    requires forall c :: EscapesWell(f, c)
    requires p < |EscapeText(f, s)| && EscapeText(f, s)[p] == '\"'
    ensures p >= 1 && EscapeText(f, s)[p - 1] == '\\'
    ensures i < |s| && s[i] == '\"' && EscapeText(f, s)[p + 1..] == EscapeText(f, s[i + 1..])
  {
    var head, rest := f(s[0]), EscapeText(f, s[1..]);
    assert EscapesWell(f, s[0]);
    if p < |head| {
      assert head[p] == '\"' && '\"' in head;
      i := 0;
    } else {
      var j := EscapedQuote(f, s[1..], p - |head|);
      i := j + 1;
      assert s[i + 1..] == s[1..][j + 1..];
      assert EscapeText(f, s)[p + 1..] == rest[p - |head| + 1..];
    }
  }

  // ---------------------------------------------------------------- values

  /** A printer: its string escape, what follows a colon, and what starts each line at a
      nesting level. `json.dumps(v, indent=2)` is PYTHON; a compact printer has both
      layout parts empty. */
  datatype Printer = Printer(escape: char -> string, afterColon: string, newline: nat -> string)

  ghost predicate ValidPrinter(l: Printer) {
    && (forall c :: EscapesWell(l.escape, c))
    && AllIn(l.afterColon, BLANKS)
    && (forall level :: AllIn(l.newline(level), BLANKS))
  }

  function Spaces(n: nat): (s: string)
    ensures AllIn(s, BLANKS) && |s| == n
  {
    if n == 0 then "" else " " + Spaces(n - 1)
  }

  const PYTHON: Printer := Printer(EscapeAscii, " ", (level: nat) => "\n" + Spaces(2 * level))

  lemma PythonIsValid()
    ensures ValidPrinter(PYTHON)
  {
    forall c ensures EscapesWell(PYTHON.escape, c) { EscapeAsciiIsGood(c); }
  }

  function Dumps(l: Printer, v: Json, level: nat): string
    decreases v, 1
  {
    match v
    case Null => "null"
    case Bool(b) => if b then "true" else "false"
    case Number(numeral) => numeral
    case Str(s) => Quote(l.escape, s)
    case Arr(items) =>
      if items == [] then "[]"
      else "[" + l.newline(level + 1) + DumpItems(l, items, level + 1) + l.newline(level) + "]"
    case Obj(members) =>
      if members == [] then "{}"
      else "{" + l.newline(level + 1) + DumpMembers(l, members, level + 1) + l.newline(level) + "}"
  }

  function DumpItems(l: Printer, items: seq<Json>, level: nat): string
    requires items != []
    decreases items, 0
  {
    if |items| == 1 then Dumps(l, items[0], level)
    else Dumps(l, items[0], level) + ("," + l.newline(level)) + DumpItems(l, items[1..], level)
  }

  function DumpMember(l: Printer, m: (string, Json), level: nat): string
    decreases m, 2
  {
    Quote(l.escape, m.0) + (":" + l.afterColon) + Dumps(l, m.1, level)
  }

  function DumpMembers(l: Printer, members: seq<(string, Json)>, level: nat): string
    requires members != []
    decreases members, 0
  {
    if |members| == 1 then DumpMember(l, members[0], level)
    else DumpMember(l, members[0], level) + ("," + l.newline(level)) + DumpMembers(l, members[1..], level)
  }

  // ------------------------------------------- where a quoted word can appear

  /** Every string and every member name inside `v`. */
  function Strings(v: Json): set<string>
    decreases v, 1
  {
    match v
    case Str(s) => {s}
    case Arr(items) => ItemStrings(items)
    case Obj(members) => MembersStrings(members)
    case _ => {}
  }

  function ItemStrings(items: seq<Json>): set<string>
    decreases items, 0
  {
    if items == [] then {} else Strings(items[0]) + ItemStrings(items[1..])
  }

  function MemberStrings(m: (string, Json)): set<string>
    decreases m, 2
  {
    {m.0} + Strings(m.1)
  }

  function MembersStrings(members: seq<(string, Json)>): set<string>
    decreases members, 0
  {
    if members == [] then {} else MemberStrings(members[0]) + MembersStrings(members[1..])
  }

  /** A bare word: nothing in it is escaped or structural. */
  predicate Word(key: string) {
    key != [] && forall i :: 0 <= i < |key| ==> 'a' <= key[i] <= 'z' || 'A' <= key[i] <= 'Z'
  }

  function Marker(key: string): string { "\"" + key + "\"" }

  /** The strings whose printed form shows `"key"`: the key itself, and any string that
      ends in a quote followed by the key (its own quote is printed escaped). */
  predicate Shows(s: string, key: string) { s == key || EndsWith(s, "\"" + key) }

  ghost predicate SomeShows(strings: set<string>, key: string) {
    exists s :: s in strings && Shows(s, key)
  }

  lemma QuoteShows(f: char -> string, s: string, key: string)
    requires Word(key) && forall c :: EscapesWell(f, c)
    ensures Occurs(Marker(key), Quote(f, s)) <==> Shows(s, key)
  {
    var t, m := Quote(f, s), Marker(key);
    if s == key {
      EscapePlain(f, key);
      assert OccursAt(m, t, 0);
    } else if EndsWith(s, "\"" + key) {
      EndingShows(f, s[..|s| - |key| - 1], key);
      assert s == s[..|s| - |key| - 1] + ("\"" + key);
    }
    forall p | OccursAt(m, t, p) ensures Shows(s, key) {
      QuoteShowsAt(f, s, key, p);
    }
  }

  lemma EndingShows(f: char -> string, head: string, key: string)
    requires Word(key) && forall c :: EscapesWell(f, c)
    ensures Occurs(Marker(key), Quote(f, head + ("\"" + key)))
  {
    var m, before := Marker(key), "\"" + EscapeText(f, head) + "\\";
    EscapePlain(f, key);
    EscapeConcat(f, head, "\"" + key);
    assert ("\"" + key)[1..] == key;
    assert EscapesWell(f, '\"');
    assert Quote(f, head + ("\"" + key)) == before + m;
    OccursAfterPrefix(m, before, m, 0);
    assert OccursAt(m, m, 0);
  }

  lemma QuoteShowsAt(f: char -> string, s: string, key: string, p: int)
    requires Word(key) && OccursAt(Marker(key), Quote(f, s), p)
    requires forall c :: EscapesWell(f, c)
    ensures Shows(s, key)
  {
    MarkerEndsQuote(f, s, key, p);
    hide Quote, OccursAt;
    var e := EscapeText(f, s);
    if p == 0 {
      EscapePlain(f, s);
    } else {
      var i := EscapedQuote(f, s, p - 1);
      var tail := s[i + 1..];
      assert EscapeText(f, tail) == key;
      EscapePlain(f, tail);
      assert s[|s| - |key| - 1..] == "\"" + key;
    }
  }

  /** A marker shown in a quoted string ends with it. */
  lemma MarkerEndsQuote(f: char -> string, s: string, key: string, p: int)
    requires Word(key) && OccursAt(Marker(key), Quote(f, s), p)
    requires forall c :: EscapesWell(f, c)
    ensures var e := EscapeText(f, s);
            && 0 <= p && |e| == p + |key| && e[p..] == key && '\\' !in key
            && (p > 0 ==> e[p - 1] == '\"')
  {
    hide EscapeText, EscapesWell, OccursAt;
    var e := EscapeText(f, s);
    forall i | 0 <= i < |e| && e[i] == '\"' ensures i >= 1 && e[i - 1] == '\\' {
      var _ := EscapedQuote(f, s, i);
    }
    MarkerEnds(e, key, p);
  }

  /** The same for any body whose quotes all stand behind a backslash. */
  lemma MarkerEnds(e: string, key: string, p: int)
    requires Word(key) && OccursAt(Marker(key), "\"" + e + "\"", p)
    requires forall i :: 0 <= i < |e| && e[i] == '\"' ==> i >= 1 && e[i - 1] == '\\'
    ensures 0 <= p && |e| == p + |key| && e[p..] == key && '\\' !in key
    ensures p > 0 ==> e[p - 1] == '\"'
  {
    var m, t, q := Marker(key), "\"" + e + "\"", p + 1 + |key|;
    assert forall i :: 0 <= i < |m| ==> t[p + i] == m[i];
    assert t[p] == m[0] && t[q] == m[1 + |key|] && t[q - 1] == m[|key|] == key[|key| - 1];
    assert q == |t| - 1;
    assert forall i :: 0 <= i < |key| ==> e[p + i] == t[p + (i + 1)] == m[i + 1] == key[i];
    assert e[p..] == key;
  }

  /** The separators of a printed value contain no character of a marker. */
  lemma SeparatorsAreForeign(l: Printer, key: string, level: nat)
    requires Word(key) && ValidPrinter(l)
    ensures forall c :: c in l.newline(level) || c in l.afterColon || c in ":,[]{}" ==> c !in Marker(key)
  {
  }

  /** A printed value shows `"key"` exactly when one of its strings or member names does. */
  lemma {:induction false} DumpsShows(l: Printer, v: Json, level: nat, key: string)
    requires Word(key) && ValidPrinter(l)
    ensures Occurs(Marker(key), Dumps(l, v, level)) <==> SomeShows(Strings(v), key)
    decreases v, 1
  {
    hide Occurs, Marker, Word;
    match v
    case Str(s) => QuoteShows(l.escape, s, key);
    case Arr(items) =>
      if items == [] {
        NoQuoteNoShow("[]", key);
      } else {
        ItemsShow(l, items, level + 1, key);
        BracketShows(l, "[", DumpItems(l, items, level + 1), "]", level, key);
      }
    case Obj(members) =>
      if members == [] {
        NoQuoteNoShow("{}", key);
      } else {
        MembersShow(l, members, level + 1, key);
        BracketShows(l, "{", DumpMembers(l, members, level + 1), "}", level, key);
      }
    case _ =>
      AtomHasNoQuote(l, v, level);
      NoQuoteNoShow(Dumps(l, v, level), key);
  }

  lemma AtomHasNoQuote(l: Printer, v: Json, level: nat)
    requires v.Null? || v.Bool? || v.Number?
    ensures '\"' !in Dumps(l, v, level) && Strings(v) == {}
  {
    if v.Number? { NumeralChars(v.numeral); }
  }

  lemma NoQuoteNoShow(t: string, key: string)
    requires '\"' !in t
    ensures !Occurs(Marker(key), t)
  {
    var m := Marker(key);
    forall p ensures !OccursAt(m, t, p) {
      if 0 <= p && p + |m| <= |t| {
        assert t[p..p + |m|][0] == t[p] != m[0];
      }
    }
  }

  lemma BracketShows(l: Printer, open: string, inner: string, close: string, level: nat, key: string)
    requires Word(key) && ValidPrinter(l)
    requires (open == "[" && close == "]") || (open == "{" && close == "}")
    ensures Occurs(Marker(key), open + l.newline(level + 1) + inner + l.newline(level) + close)
       <==> Occurs(Marker(key), inner)
  {
    var m, before, after := Marker(key), open + l.newline(level + 1), l.newline(level) + close;
    SeparatorsAreForeign(l, key, level);
    SeparatorsAreForeign(l, key, level + 1);
    OccursAcross(m, inner, after, "");
    OccursAcross(m, "", before, inner + after + "");
    assert "" + before + (inner + after + "") == open + l.newline(level + 1) + inner + l.newline(level) + close;
  }

  lemma {:induction false} ItemsShow(l: Printer, items: seq<Json>, level: nat, key: string)
    requires Word(key) && ValidPrinter(l) && items != []
    ensures Occurs(Marker(key), DumpItems(l, items, level)) <==> SomeShows(ItemStrings(items), key)
    decreases items, 0
  {
    DumpsShows(l, items[0], level, key);
    SeparatorsAreForeign(l, key, level);
    if |items| > 1 {
      ItemsShow(l, items[1..], level, key);
      OccursAcross(Marker(key), Dumps(l, items[0], level), "," + l.newline(level), DumpItems(l, items[1..], level));
    }
  }

  lemma MemberShows(l: Printer, m: (string, Json), level: nat, key: string)
    requires Word(key) && ValidPrinter(l)
    ensures Occurs(Marker(key), DumpMember(l, m, level)) <==> SomeShows(MemberStrings(m), key)
    decreases m, 2
  {
    SeparatorsAreForeign(l, key, level);
    QuoteShows(l.escape, m.0, key);
    DumpsShows(l, m.1, level, key);
    OccursAcross(Marker(key), Quote(l.escape, m.0), ":" + l.afterColon, Dumps(l, m.1, level));
  }

  lemma {:induction false} MembersShow(l: Printer, members: seq<(string, Json)>, level: nat, key: string)
    requires Word(key) && ValidPrinter(l) && members != []
    ensures Occurs(Marker(key), DumpMembers(l, members, level)) <==> SomeShows(MembersStrings(members), key)
    decreases members, 0
  {
    MemberShows(l, members[0], level, key);
    SeparatorsAreForeign(l, key, level);
    if |members| > 1 {
      MembersShow(l, members[1..], level, key);
      OccursAcross(Marker(key), DumpMember(l, members[0], level), "," + l.newline(level),
                   DumpMembers(l, members[1..], level));
    }
  }
}

/** A reader of JSON text, written from the grammar of RFC 8259 alone, and the proof that
    what `json.dumps` prints reads back to the value it printed. */
module JsonReader {
  import opened Text
  import opened Lists
  import opened Json

  /** A value read from the start of a text, and what follows it. */
  datatype Read<T> = Read(value: T, rest: string)

  function Skip(t: string): (r: string)
    ensures |r| <= |t|
  {
    if t != [] && t[0] in BLANKS then Skip(t[1..]) else t
  }

  // ---------------------------------------------------------------- strings (section 7)

  function HexValue(c: char): Option<nat> {
    if '0' <= c <= '9' then Some(c as int - '0' as int)
    else if 'a' <= c <= 'f' then Some(10 + c as int - 'a' as int)
    else if 'A' <= c <= 'F' then Some(10 + c as int - 'A' as int)
    else None
  }

  /** Four hexadecimal digits, the most significant first. */
  function HexValue4(t: string): (r: Option<nat>)
    ensures r.Some? ==> |t| >= 4
  {
    if |t| < 4 then None
    else
      var a, b, c, d := HexValue(t[0]), HexValue(t[1]), HexValue(t[2]), HexValue(t[3]);
      if a.Some? && b.Some? && c.Some? && d.Some?
      then Some(((a.value * 16 + b.value) * 16 + c.value) * 16 + d.value)
      else None
  }

  /** What follows `\u`; a code unit from D800 on is the first of a surrogate pair. */
  function ReadUnicode(t: string): (r: Option<Read<char>>)
    ensures r.Some? ==> |r.value.rest| < |t|
  {
    match HexValue4(t)
    case None => None
    case Some(n) =>
      if n < 0xd800 || 0xe000 <= n < 0x10000 then Some(Read(n as char, t[4..]))
      else if n < 0xdc00 then ReadLow(n - 0xd800, t[4..])
      else None
  }

  function ReadLow(high: nat, t: string): (r: Option<Read<char>>)
    requires high < 0x400
    ensures r.Some? ==> |r.value.rest| < |t|
  {
    if |t| < 2 || t[0] != '\\' || t[1] != 'u' then None
    else match HexValue4(t[2..])
      case None => None
      case Some(n) =>
        if 0xdc00 <= n < 0xe000 then Some(Read((0x10000 + high * 0x400 + (n - 0xdc00)) as char, t[6..])) else None
  }

  /** The two-character escapes. */
  function Short(c: char): Option<char> {
    match c
    case '\"' => Some('\"')
    case '\\' => Some('\\')
    case '/' => Some('/')
    case 'b' => Some(8 as char)
    case 'f' => Some(12 as char)
    case 'n' => Some(10 as char)
    case 'r' => Some(13 as char)
    case 't' => Some(9 as char)
    case _ => None
  }

  /** One character of a string's body. */
  function ReadChar(t: string): (r: Option<Read<char>>)
    ensures r.Some? ==> |r.value.rest| < |t|
  {
    if t == [] || t[0] == '\"' || t[0] < ' ' then None
    else if t[0] != '\\' then Some(Read(t[0], t[1..]))
    else if |t| < 2 then None
    else if t[1] == 'u' then ReadUnicode(t[2..])
    else if Short(t[1]).Some? then Some(Read(Short(t[1]).value, t[2..]))
    else None
  }

  /** The body of a string, up to and with its closing quote. */
  function ReadBody(t: string): (r: Option<Read<string>>)
    ensures r.Some? ==> |r.value.rest| < |t|
  {
    if t != [] && t[0] == '\"' then Some(Read("", t[1..]))
    else match ReadChar(t)
      case None => None
      case Some(first) => match ReadBody(first.rest)
        case None => None
        case Some(more) => Some(Read([first.value] + more.value, more.rest))
  }

  // ------------------------------------------------------------- values (sections 3 to 6)

  /** The characters a number may be made of. */
  function NumeralRun(t: string): (n: nat)
    ensures n <= |t|
  {
    if t != [] && InNumeral(t[0]) then 1 + NumeralRun(t[1..]) else 0
  }

  function ReadNumber(t: string): (r: Option<Read<Json>>)
    ensures r.Some? ==> |r.value.rest| < |t|
  {
    var s := t[..NumeralRun(t)];
    if IsNumber(s) || s in ["NaN", "Infinity", "-Infinity"] then Some(Read(Number(s), t[|s|..])) else None
  }

  function ReadValue(t: string): (r: Option<Read<Json>>)
    ensures r.Some? ==> |r.value.rest| < |t|
    decreases |t|, 0
  {
    if StartsWith(t, "null") then Some(Read(Null, t[4..]))
    else if StartsWith(t, "true") then Some(Read(Bool(true), t[4..]))
    else if StartsWith(t, "false") then Some(Read(Bool(false), t[5..]))
    else if StartsWith(t, "\"") then
      match ReadBody(t[1..])
      case None => None
      case Some(s) => Some(Read(Str(s.value), s.rest))
    else if StartsWith(t, "[") then
      var inner := Skip(t[1..]);
      if StartsWith(inner, "]") then Some(Read(Arr([]), inner[1..]))
      else match ReadItems(inner)
        case None => None
        case Some(items) => Some(Read(Arr(items.value), items.rest))
    else if StartsWith(t, "{") then
      var inner := Skip(t[1..]);
      if StartsWith(inner, "}") then Some(Read(Obj([]), inner[1..]))
      else match ReadMembers(inner)
        case None => None
        case Some(members) => Some(Read(Obj(members.value), members.rest))
    else ReadNumber(t)
  }

  /** The items of an array, from its first on, up to and with its closing bracket. */
  function ReadItems(t: string): (r: Option<Read<seq<Json>>>)
    ensures r.Some? ==> |r.value.rest| < |t|
    decreases |t|, 1
  {
    match ReadValue(t)
    case None => None
    case Some(first) =>
      var after := Skip(first.rest);
      if StartsWith(after, "]") then Some(Read([first.value], after[1..]))
      else if StartsWith(after, ",") then
        match ReadItems(Skip(after[1..]))
        case None => None
        case Some(more) => Some(Read([first.value] + more.value, more.rest))
      else None
  }

  function ReadMember(t: string): (r: Option<Read<(string, Json)>>)
    ensures r.Some? ==> |r.value.rest| < |t|
    decreases |t|, 1
  {
    if !StartsWith(t, "\"") then None
    else match ReadBody(t[1..])
      case None => None
      case Some(name) =>
        var after := Skip(name.rest);
        if !StartsWith(after, ":") then None
        else match ReadValue(Skip(after[1..]))
          case None => None
          case Some(v) => Some(Read((name.value, v.value), v.rest))
  }

  /** The members of an object, in order, up to and with its closing brace. */
  function ReadMembers(t: string): (r: Option<Read<seq<(string, Json)>>>)
    ensures r.Some? ==> |r.value.rest| < |t|
    decreases |t|, 2
  {
    match ReadMember(t)
    case None => None
    case Some(first) =>
      var after := Skip(first.rest);
      if StartsWith(after, "}") then Some(Read([first.value], after[1..]))
      else if StartsWith(after, ",") then
        match ReadMembers(Skip(after[1..]))
        case None => None
        case Some(more) => Some(Read([first.value] + more.value, more.rest))
      else None
  }

  /** The value a whole text denotes: one value between blanks (section 2). */
  function Denotes(t: string): Option<Json> {
    match ReadValue(Skip(t))
    case None => None
    case Some(v) => if Skip(v.rest) == [] then Some(v.value) else None
  }

  // ------------------------------------------------------------------- blanks

  lemma {:induction false} SkipBlanks(blanks: string, t: string)
    requires AllIn(blanks, BLANKS)
    ensures Skip(blanks + t) == Skip(t)
  {
    if blanks == [] {
      assert blanks + t == t;
    } else {
      SkipBlanks(blanks[1..], t);
      assert (blanks + t)[1..] == blanks[1..] + t;
    }
  }

  lemma SkipNone(t: string)
    requires t == [] || t[0] !in BLANKS
    ensures Skip(t) == t
  {
  }

  // ------------------------------------------------------- strings read back

  /** What the round trip needs of a string escape. */
  ghost predicate Readable(f: char -> string) { forall c, rest :: ReadsChar(f, c, rest) }

  ghost predicate ReadsChar(f: char -> string, c: char, rest: string) {
    f(c) != [] && f(c)[0] != '\"' && ReadChar(f(c) + rest) == Some(Read(c, rest))
  }

  lemma HexReads(n: nat)
    requires n < 16
    ensures HexValue(HexDigit(n)) == Some(n)
  {
  }

  lemma UnicodeReads(n: nat, rest: string)
    requires n < 0x10000
    ensures HexValue4(UnicodeEscape(n)[2..] + rest) == Some(n)
    ensures UnicodeEscape(n) == "\\u" + UnicodeEscape(n)[2..] && |UnicodeEscape(n)| == 6
  {
    var a, b, c, d := n / 4096, n / 256 % 16, n / 16 % 16, n % 16;
    HexReads(a);
    HexReads(b);
    HexReads(c);
    HexReads(d);
    hide HexDigit, HexValue;
    assert UnicodeEscape(n)[2..] == [HexDigit(a), HexDigit(b), HexDigit(c), HexDigit(d)];
    FourDigits(n);
  }

  lemma FourDigits(n: nat)
    ensures ((n / 4096 * 16 + n / 256 % 16) * 16 + n / 16 % 16) * 16 + n % 16 == n
  {
    assert n / 16 / 16 == n / 256 && n / 256 / 16 == n / 4096;
  }

  lemma AsciiReads(c: char, rest: string)
    ensures ReadsChar(EscapeAscii, c, rest)
  {
    if c as int >= 0x10000 {
      AstralReads(c, rest);
    } else if EscapeAscii(c) == UnicodeEscape(c as int) {
      BasicReads(c, rest);
    } else if ' ' <= c <= '~' && c != '\"' && c != '\\' {
      assert EscapeAscii(c) == [c] && ([c] + rest)[1..] == rest;
    } else {
      ShortReads(c, rest);
    }
  }

  lemma BasicReads(c: char, rest: string)
    requires c as int < 0x10000 && EscapeAscii(c) == UnicodeEscape(c as int)
    ensures ReadsChar(EscapeAscii, c, rest)
  {
    hide EscapeAscii, UnicodeEscape, HexValue4;
    UnicodeReads(c as int, rest);
    Unfold(UnicodeEscape(c as int)[2..], rest);
  }

  lemma ShortReads(c: char, rest: string)
    requires |EscapeAscii(c)| == 2
    ensures ReadsChar(EscapeAscii, c, rest)
  {
    hide UnicodeEscape, ReadUnicode;
    var e := EscapeAscii(c);
    assert e[0] == '\\' && Short(e[1]) == Some(c) && e[1] != 'u';
    hide EscapeAscii, Short;
    assert (e + rest)[0] == e[0] && (e + rest)[1] == e[1] && (e + rest)[2..] == rest;
  }

  /** A text that starts with a four-digit escape. */
  lemma Unfold(digits: string, rest: string)
    requires |digits| == 4
    ensures var t := ("\\u" + digits) + rest;
            && t[..2] == "\\u" && t[0] == '\\' && t[1] == 'u' && t[2..] == digits + rest
            && (digits + rest)[4..] == rest && t[6..] == rest
  {
  }

  lemma AstralReads(c: char, rest: string)
    requires c as int >= 0x10000
    ensures ReadsChar(EscapeAscii, c, rest)
  {
    hide *;
    var v := c as int - 0x10000;
    var h, l := v / 1024, v % 1024;
    AstralEscape(c, h, l);
    var hi, lo := UnicodeEscape(0xd800 + h), UnicodeEscape(0xdc00 + l);
    UnicodeReads(0xd800 + h, lo + rest);
    UnicodeReads(0xdc00 + l, rest);
    PairReads(hi[2..], lo[2..], h, l, rest);
    Associates(hi, lo, rest);
    ReadsFrom(EscapeAscii, c, rest, hi + (lo + rest));
  }

  lemma AstralEscape(c: char, h: nat, l: nat)
    requires c as int >= 0x10000 && h == (c as int - 0x10000) / 1024 && l == (c as int - 0x10000) % 1024
    ensures h < 0x400 && l < 0x400 && 0x10000 + h * 0x400 + l == c as int
    ensures EscapeAscii(c) == UnicodeEscape(0xd800 + h) + UnicodeEscape(0xdc00 + l)
  {
    hide UnicodeEscape;
    assert h % 1024 == h;
  }

  lemma ReadsFrom(f: char -> string, c: char, rest: string, t: string)
    requires f(c) + rest == t && f(c) != [] && t[0] != '\"' && ReadChar(t) == Some(Read(c, rest))
    ensures ReadsChar(f, c, rest)
  {
    hide ReadChar;
    assert f(c)[0] == t[0];
  }

  lemma PairReads(hi: string, lo: string, h: nat, l: nat, rest: string)
    requires |hi| == |lo| == 4 && h < 0x400 && l < 0x400
    requires HexValue4(hi + (("\\u" + lo) + rest)) == Some(0xd800 + h) && HexValue4(lo + rest) == Some(0xdc00 + l)
    ensures ReadChar(("\\u" + hi) + (("\\u" + lo) + rest)) == Some(Read((0x10000 + h * 0x400 + l) as char, rest))
  {
    hide HexValue4;
    Unfold(hi, ("\\u" + lo) + rest);
    Unfold(lo, rest);
    assert ReadLow(h, ("\\u" + lo) + rest) == Some(Read((0x10000 + h * 0x400 + l) as char, rest));
  }

  lemma PythonReads()
    ensures Readable(PYTHON.escape)
  {
    forall c, rest ensures ReadsChar(PYTHON.escape, c, rest) { AsciiReads(c, rest); }
  }

  /** Which form each escape has: printable ASCII stands for itself; a quote, a backslash and
      the five control characters with a letter take two characters; the rest of the basic
      plane one `\u` and four lower-case digits, and everything beyond it two of them. With
      AsciiReads this leaves no choice. */
  lemma EscapeForms(c: char)
    ensures var n, e := c as int, EscapeAscii(c);
            && |e| == (if n in {8, 9, 10, 12, 13, 34, 92} then 2 else if 32 <= n <= 126 then 1
                       else if n < 0x10000 then 6 else 12)
            && (|e| == 1 || e[0] == '\\')
            && (|e| >= 6 ==> e[..2] == "\\u" && forall i :: 2 <= i < 6 ==> e[i] in "0123456789abcdef")
            && (|e| == 12 ==> e[6..8] == "\\u" && forall i :: 8 <= i < 12 ==> e[i] in "0123456789abcdef")
  {
    if c as int >= 0x10000 {
      var v := c as int - 0x10000;
      UnicodeForm(0xd800 + v / 1024 % 1024);
      UnicodeForm(0xdc00 + v % 1024);
      hide UnicodeEscape;
    } else {
      UnicodeForm(c as int);
      hide UnicodeEscape;
    }
  }

  lemma UnicodeForm(n: nat)
    requires n < 0x10000
    ensures var e := UnicodeEscape(n);
            |e| == 6 && e[..2] == "\\u" && forall i :: 2 <= i < 6 ==> e[i] in "0123456789abcdef"
  {
    forall k: nat | k < 16 ensures HexDigit(k) in "0123456789abcdef" {
      assert "0123456789abcdef"[k] == HexDigit(k);
    }
    hide HexDigit;
  }

  /** An escaped text and its closing quote read back. */
  lemma {:induction false} BodyReads(f: char -> string, s: string, rest: string)
    requires Readable(f)
    ensures ReadBody(EscapeText(f, s) + ("\"" + rest)) == Some(Read(s, rest))
  {
    var after := "\"" + rest;
    if s == [] {
      assert EscapeText(f, s) + after == after && after[1..] == rest;
    } else {
      hide Readable, ReadChar, ReadBody;
      BodyReads(f, s[1..], rest);
      EscapeCons(f, s);
      var more := EscapeText(f, s[1..]) + after;
      ReadableChar(f, s[0], more);
      Associates(f(s[0]), EscapeText(f, s[1..]), after);
      BodyStep(f(s[0]) + more, s[0], more, s[1..], rest);
      assert s == [s[0]] + s[1..];
    }
  }

  lemma BodyStep(t: string, c: char, more: string, s: string, rest: string)
    requires t != [] && t[0] != '\"' && ReadChar(t) == Some(Read(c, more)) && ReadBody(more) == Some(Read(s, rest))
    ensures ReadBody(t) == Some(Read([c] + s, rest))
  {
    hide ReadChar;
  }

  lemma ReadableChar(f: char -> string, c: char, rest: string)
    requires Readable(f)
    ensures ReadChar(f(c) + rest) == Some(Read(c, rest)) && f(c) + rest != [] && (f(c) + rest)[0] != '\"'
  {
    hide ReadChar;
    assert ReadsChar(f, c, rest);
  }

  lemma QuoteReads(f: char -> string, s: string, rest: string)
    requires Readable(f)
    ensures var t := Quote(f, s) + rest;
            && StartsWith(t, "\"") && ReadBody(t[1..]) == Some(Read(s, rest))
  {
    BodyReads(f, s, rest);
    hide *;
    QuoteIs(f, s, rest);
  }

  lemma QuoteIs(f: char -> string, s: string, rest: string)
    ensures var t := Quote(f, s) + rest;
            StartsWith(t, "\"") && t[1..] == EscapeText(f, s) + ("\"" + rest)
  {
    hide EscapeText;
    assert Quote(f, s) + rest == "\"" + (EscapeText(f, s) + ("\"" + rest));
  }

  // -------------------------------------------------------- values read back

  /** What may follow a value: not a character that a number could go on with. */
  predicate Ends(rest: string) { rest == [] || !InNumeral(rest[0]) }

  lemma {:induction false} RunEnds(s: string, rest: string)
    requires AllNumeral(s) && Ends(rest)
    ensures NumeralRun(s + rest) == |s|
  {
    hide InNumeral;
    if s == [] {
      assert s + rest == rest;
    } else {
      RunEnds(s[1..], rest);
      assert (s + rest)[1..] == s[1..] + rest;
    }
  }

  lemma NumberReads(s: Numeral, rest: string)
    requires Ends(rest)
    ensures ReadNumber(s + rest) == Some(Read(Number(s), rest))
  {
    NumeralChars(s);
    RunEnds(s, rest);
    assert (s + rest)[..|s|] == s && (s + rest)[|s|..] == rest;
    hide IsNumber, NumeralRun;
  }

  /** A number does not start as another value does. */
  lemma NumberStarts(s: Numeral, rest: string)
    ensures s != [] && ReadValue(s + rest) == ReadNumber(s + rest)
  {
    NumeralHead(s);
    OnlyANumber(s + rest);
  }

  lemma NumeralHead(s: Numeral)
    ensures s != [] && s[0] !in "ntf\"[{"
  {
    hide IsFraction;
    assert s != [] && (s[0] == '-' || IsDigit(s[0]) || s[0] == 'N' || s[0] == 'I');
  }

  lemma OnlyANumber(t: string)
    requires t != [] && t[0] !in "ntf\"[{"
    ensures ReadValue(t) == ReadNumber(t)
  {
    hide ReadNumber, ReadMembers, ReadItems, ReadBody, Skip;
    assert !StartsWith(t, "null") && !StartsWith(t, "true") && !StartsWith(t, "false");
    assert !StartsWith(t, "\"") && !StartsWith(t, "[") && !StartsWith(t, "{");
  }

  // One step of the reader, whatever the texts are made of.

  lemma LastItem(t: string, v: Json, after: string, rest: string)
    requires ReadValue(t) == Some(Read(v, after)) && Skip(after) == "]" + rest
    ensures ReadItems(t) == Some(Read([v], rest))
  {
    hide ReadValue, Skip;
  }

  lemma OneItem(t: string, v: Json, after: string, blanks: string, more: string, vs: seq<Json>, rest: string)
    requires ReadValue(t) == Some(Read(v, after)) && Skip(after) == "," + blanks && Skip(blanks) == more
    requires ReadItems(more) == Some(Read(vs, rest))
    ensures ReadItems(t) == Some(Read([v] + vs, rest))
  {
    hide ReadValue, Skip;
    assert ("," + blanks)[1..] == blanks;
  }

  lemma LastMember(t: string, m: (string, Json), after: string, rest: string)
    requires ReadMember(t) == Some(Read(m, after)) && Skip(after) == "}" + rest
    ensures ReadMembers(t) == Some(Read([m], rest))
  {
    hide ReadMember, Skip;
  }

  lemma NextMember(t: string, m: (string, Json), after: string, blanks: string, more: string,
                   ms: seq<(string, Json)>, rest: string)
    requires ReadMember(t) == Some(Read(m, after)) && Skip(after) == "," + blanks && Skip(blanks) == more
    requires ReadMembers(more) == Some(Read(ms, rest))
    ensures ReadMembers(t) == Some(Read([m] + ms, rest))
  {
    hide ReadMember, Skip;
    assert ("," + blanks)[1..] == blanks;
  }

  lemma NamedValue(t: string, name: string, after: string, blanks: string, more: string, v: Json, rest: string)
    requires StartsWith(t, "\"") && ReadBody(t[1..]) == Some(Read(name, after))
    requires Skip(after) == ":" + blanks && Skip(blanks) == more && ReadValue(more) == Some(Read(v, rest))
    ensures ReadMember(t) == Some(Read((name, v), rest))
  {
    hide ReadValue, Skip, ReadBody;
    assert (":" + blanks)[1..] == blanks;
  }

  lemma ArrayAround(t: string, blanks: string, inner: string, items: seq<Json>, rest: string)
    requires t == "[" + blanks && Skip(blanks) == inner && inner != [] && inner[0] != ']'
    requires ReadItems(inner) == Some(Read(items, rest))
    ensures ReadValue(t) == Some(Read(Arr(items), rest))
  {
    hide ReadItems, Skip;
    assert t[0] == '[' && t[..1] == "[" && t[1..] == blanks;
  }

  lemma ObjectAround(t: string, blanks: string, inner: string, members: seq<(string, Json)>, rest: string)
    requires t == "{" + blanks && Skip(blanks) == inner && inner != [] && inner[0] != '}'
    requires ReadMembers(inner) == Some(Read(members, rest))
    ensures ReadValue(t) == Some(Read(Obj(members), rest))
  {
    hide ReadMembers, Skip;
    assert t[0] == '{' && t[..1] == "{" && t[1..] == blanks;
  }

  lemma EmptyReads(rest: string)
    ensures ReadValue("[]" + rest) == Some(Read(Arr([]), rest))
    ensures ReadValue("{}" + rest) == Some(Read(Obj([]), rest))
  {
    hide ReadItems, ReadMembers;
    var a, o := "[]" + rest, "{}" + rest;
    assert a[0] == '[' && a[1..] == "]" + rest && a[1..][1..] == rest;
    assert o[0] == '{' && o[1..] == "}" + rest && o[1..][1..] == rest;
    SkipNone("]" + rest);
    SkipNone("}" + rest);
    hide Skip;
  }

  lemma NameReads(rest: string)
    ensures ReadValue("null" + rest) == Some(Read(Null, rest))
    ensures ReadValue("true" + rest) == Some(Read(Bool(true), rest))
    ensures ReadValue("false" + rest) == Some(Read(Bool(false), rest))
  {
    hide ReadItems, ReadMembers, ReadNumber, ReadBody, Skip;
    var n, t, f := "null" + rest, "true" + rest, "false" + rest;
    assert n[..4] == "null" && n[4..] == rest;
    assert t[..4] == "true" && t[4..] == rest && t[0] == 't';
    assert f[..5] == "false" && f[5..] == rest && f[0] == 'f';
  }

  lemma TextReads(t: string, s: string, rest: string)
    requires StartsWith(t, "\"") && ReadBody(t[1..]) == Some(Read(s, rest))
    ensures ReadValue(t) == Some(Read(Str(s), rest))
  {
    hide ReadItems, ReadMembers, ReadNumber, ReadBody, Skip;
    assert t[0] == t[..1][0];
  }

  /** What a printed value can start with. */
  predicate Starts(t: string) { t != [] && t[0] !in BLANKS && t[0] != ']' && t[0] != '}' }

  lemma {:induction false} DumpsStarts(l: Printer, v: Json, level: nat)
    ensures Starts(Dumps(l, v, level))
  {
    hide DumpItems, DumpMembers, EscapeText, Spaces;
    if v.Number? { NumberStarts(v.numeral, ""); NumeralChars(v.numeral); }
  }

  lemma ItemsStart(l: Printer, items: seq<Json>, level: nat)
    requires items != []
    ensures Starts(DumpItems(l, items, level))
  {
    DumpsStarts(l, items[0], level);
    hide Dumps;
  }

  lemma MembersStart(l: Printer, members: seq<(string, Json)>, level: nat)
    requires members != []
    ensures Starts(DumpMembers(l, members, level))
  {
    hide Dumps, EscapeText;
  }

  /** A separator: `mark` and blanks, before what starts a value. */
  lemma Separated(mark: string, blanks: string, more: string)
    requires |mark| == 1 && mark[0] !in BLANKS && AllIn(blanks, BLANKS) && Starts(more)
    ensures Skip((mark + blanks) + more) == mark + (blanks + more) && Skip(blanks + more) == more
  {
    SkipBlanks(blanks, more);
    SkipNone(more);
    SkipNone((mark + blanks) + more);
    Associates(mark, blanks, more);
  }

  /** Blanks and a closing bracket. */
  lemma Closed(blanks: string, mark: string, rest: string)
    requires |mark| == 1 && (mark[0] == ']' || mark[0] == '}') && AllIn(blanks, BLANKS)
    ensures Skip(blanks + (mark + rest)) == mark + rest && Ends(blanks + (mark + rest))
  {
    SkipBlanks(blanks, mark + rest);
    SkipNone(mark + rest);
    assert blanks != [] ==> (blanks + (mark + rest))[0] == blanks[0] && blanks[0] in BLANKS;
  }

  /** A printed value reads back to the value it was printed from, whatever follows that
      does not go on with a number; for every printer whose escapes read back. */
  lemma {:induction false} DumpsReads(l: Printer, v: Json, level: nat, rest: string)
    requires ValidPrinter(l) && Readable(l.escape) && Ends(rest)
    ensures ReadValue(Dumps(l, v, level) + rest) == Some(Read(v, rest))
    decreases v, 1
  {
    hide ReadValue, ReadNumber, ValidPrinter, Readable, DumpItems, DumpMembers, Quote;
    match v
    case Null => NameReads(rest);
    case Bool(_) => NameReads(rest);
    case Number(numeral) =>
      NumberReads(numeral, rest);
      NumberStarts(numeral, rest);
    case Str(s) =>
      QuoteReads(l.escape, s, rest);
      TextReads(Quote(l.escape, s) + rest, s, rest);
    case Arr(items) =>
      if items == [] {
        EmptyReads(rest);
      } else {
        LayoutIsBlank(l, level);
        ItemsRead(l, items, level + 1, l.newline(level), rest);
        ArrayReads(l.newline(level + 1), DumpItems(l, items, level + 1), l.newline(level), items, rest) by {
          LayoutIsBlank(l, level + 1);
          ItemsStart(l, items, level + 1);
        }
      }
    case Obj(members) =>
      if members == [] {
        EmptyReads(rest);
      } else {
        LayoutIsBlank(l, level);
        MembersRead(l, members, level + 1, l.newline(level), rest);
        ObjectReads(l.newline(level + 1), DumpMembers(l, members, level + 1), l.newline(level), members, rest) by {
          LayoutIsBlank(l, level + 1);
          MembersStart(l, members, level + 1);
        }
      }
  }

  lemma LayoutIsBlank(l: Printer, level: nat)
    requires ValidPrinter(l)
    ensures AllIn(l.newline(level), BLANKS) && AllIn(l.afterColon, BLANKS)
  {
  }

  lemma Bracketed(open: string, nl1: string, inner: string, nl: string, close: string, rest: string)
    ensures open + nl1 + inner + nl + close + rest == open + (nl1 + (inner + (nl + (close + rest))))
  {
    Associates(open + nl1 + inner + nl, close, rest);
    Associates(open + nl1 + inner, nl, close + rest);
    Associates(open + nl1, inner, nl + (close + rest));
    Associates(open, nl1, inner + (nl + (close + rest)));
  }

  lemma ArrayReads(nl1: string, inner: string, nl: string, items: seq<Json>, rest: string)
    requires AllIn(nl1, BLANKS) && Starts(inner)
    requires ReadItems(inner + (nl + ("]" + rest))) == Some(Read(items, rest))
    ensures ReadValue("[" + nl1 + inner + nl + "]" + rest) == Some(Read(Arr(items), rest))
  {
    hide ReadValue, ReadItems;
    var after := inner + (nl + ("]" + rest));
    SkipBlanks(nl1, after);
    SkipNone(after);
    Bracketed("[", nl1, inner, nl, "]", rest);
    ArrayAround("[" + (nl1 + after), nl1 + after, after, items, rest);
  }

  lemma ObjectReads(nl1: string, inner: string, nl: string, members: seq<(string, Json)>, rest: string)
    requires AllIn(nl1, BLANKS) && Starts(inner)
    requires ReadMembers(inner + (nl + ("}" + rest))) == Some(Read(members, rest))
    ensures ReadValue("{" + nl1 + inner + nl + "}" + rest) == Some(Read(Obj(members), rest))
  {
    hide ReadValue, ReadMembers;
    var after := inner + (nl + ("}" + rest));
    SkipBlanks(nl1, after);
    SkipNone(after);
    Bracketed("{", nl1, inner, nl, "}", rest);
    ObjectAround("{" + (nl1 + after), nl1 + after, after, members, rest);
  }

  lemma {:induction false} ItemsRead(l: Printer, items: seq<Json>, level: nat, nl: string, rest: string)
    requires ValidPrinter(l) && Readable(l.escape) && items != [] && AllIn(nl, BLANKS)
    ensures ReadItems(DumpItems(l, items, level) + (nl + ("]" + rest))) == Some(Read(items, rest))
    decreases items, 0
  {
    hide ReadItems, ReadValue, ValidPrinter, Readable, Dumps, Skip, Starts;
    var first, close := Dumps(l, items[0], level), nl + ("]" + rest);
    Closed(nl, "]", rest);
    assert items == [items[0]] + items[1..];
    if |items| == 1 {
      DumpsReads(l, items[0], level, close);
      LastItem(first + close, items[0], close, rest);
      assert items[1..] == [] && items == [items[0]];
    } else {
      ItemsRead(l, items[1..], level, nl, rest);
      var more, blanks := DumpItems(l, items[1..], level), l.newline(level);
      ItemsStart(l, items[1..], level);
      LayoutIsBlank(l, level);
      Separated(",", blanks, more + close) by { StartsOn(more, close); }
      var after := ("," + blanks) + (more + close);
      DumpsReads(l, items[0], level, after);
      OneItem(first + after, items[0], after, blanks + (more + close), more + close, items[1..], rest);
      Joined(first, "," + blanks, more, close);
    }
  }

  lemma Joined(a: string, sep: string, b: string, c: string)
    ensures a + sep + b + c == a + (sep + (b + c))
  {
    Associates(a + sep, b, c);
    Associates(a, sep, b + c);
  }

  lemma StartsOn(t: string, more: string)
    requires Starts(t)
    ensures Starts(t + more)
  {
  }

  lemma MemberReads(l: Printer, m: (string, Json), level: nat, rest: string)
    requires ValidPrinter(l) && Readable(l.escape) && Ends(rest)
    ensures ReadMember(DumpMember(l, m, level) + rest) == Some(Read(m, rest))
    decreases m, 2
  {
    hide ReadMember, ReadValue, ValidPrinter, Readable, Dumps, Skip, Starts, Quote;
    DumpsReads(l, m.1, level, rest);
    DumpsStarts(l, m.1, level);
    LayoutIsBlank(l, level);
    var v := Dumps(l, m.1, level) + rest;
    Separated(":", l.afterColon, v) by { StartsOn(Dumps(l, m.1, level), rest); }
    var after := (":" + l.afterColon) + v;
    QuoteReads(l.escape, m.0, after);
    NamedValue(Quote(l.escape, m.0) + after, m.0, after, l.afterColon + v, v, m.1, rest);
    Joined(Quote(l.escape, m.0), ":" + l.afterColon, Dumps(l, m.1, level), rest);
  }

  lemma {:induction false} MembersRead(l: Printer, members: seq<(string, Json)>, level: nat, nl: string, rest: string)
    requires ValidPrinter(l) && Readable(l.escape) && members != [] && AllIn(nl, BLANKS)
    ensures ReadMembers(DumpMembers(l, members, level) + (nl + ("}" + rest))) == Some(Read(members, rest))
    decreases members, 0
  {
    hide ReadMembers, ReadMember, ValidPrinter, Readable, DumpMember, Skip, Starts;
    var first, close := DumpMember(l, members[0], level), nl + ("}" + rest);
    Closed(nl, "}", rest);
    assert members == [members[0]] + members[1..];
    if |members| == 1 {
      MemberReads(l, members[0], level, close);
      LastMember(first + close, members[0], close, rest);
      assert members[1..] == [] && members == [members[0]];
    } else {
      MembersRead(l, members[1..], level, nl, rest);
      var more, blanks := DumpMembers(l, members[1..], level), l.newline(level);
      MembersStart(l, members[1..], level);
      LayoutIsBlank(l, level);
      Separated(",", blanks, more + close) by { StartsOn(more, close); }
      var after := ("," + blanks) + (more + close);
      MemberReads(l, members[0], level, after);
      NextMember(first + after, members[0], after, blanks + (more + close), more + close, members[1..], rest);
      Joined(first, "," + blanks, more, close);
    }
  }

  /** `json.loads(json.dumps(v, indent=2))` is `v`: Python's printed text denotes exactly
      the value, blanks around it or not. */
  lemma PythonDenotes(v: Json, level: nat, before: string, after: string)
    requires AllIn(before, BLANKS) && AllIn(after, BLANKS)
    ensures Denotes(before + Dumps(PYTHON, v, level) + after) == Some(v)
  {
    hide ReadValue, Dumps, ValidPrinter, Readable, InNumeral;
    PythonIsValid();
    PythonReads();
    var t := Dumps(PYTHON, v, level);
    DumpsStarts(PYTHON, v, level);
    assert Ends(after) by { BlankEnds(after); }
    DumpsReads(PYTHON, v, level, after);
    SkipBlanks(before, t + after);
    SkipNone(t + after);
    SkipBlanks(after, "");
    assert after + "" == after;
    Associates(before, t, after);
  }

  lemma BlankEnds(blanks: string)
    requires AllIn(blanks, BLANKS)
    ensures Ends(blanks)
  {
    assert blanks != [] ==> blanks[0] in BLANKS;
  }
}

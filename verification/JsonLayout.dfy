/** The layout of `json.dumps(v, indent=2)`: every item and every member on a line of its
    own, indented by two spaces for each level it is inside. */
module JsonLayout {
  import opened Lists
  import opened Json

  function Line(depth: nat): string { "\n" + seq(2 * depth, _ => ' ') }

  /** The pieces, each on its own line, with commas between them. */
  function Listed(pieces: seq<string>, depth: nat): string {
    if pieces == [] then ""
    else
      var n := |pieces| - 1;
      Listed(pieces[..n], depth) + (if n > 0 then "," else "") + (Line(depth) + pieces[n])
  }

  /** `t` is a printed form of `v` inside `depth` brackets, laid out like that. */
  ghost predicate Laid(v: Json, depth: nat, t: string)
    decreases v, 1
  {
    match v
    case Null => t == "null"
    case Bool(b) => t == if b then "true" else "false"
    case Number(numeral) => t == numeral
    case Str(s) => t == "\"" + EscapeText(EscapeAscii, s) + "\""
    case Arr(items) =>
      if items == [] then t == "[]"
      else
        exists pieces: seq<string> ::
          && t == "[" + Listed(pieces, depth + 1) + Line(depth) + "]"
          && AllLaid(items, depth, pieces)
    case Obj(members) =>
      if members == [] then t == "{}"
      else
        exists pieces: seq<string> ::
          && t == "{" + Listed(pieces, depth + 1) + Line(depth) + "}"
          && AllNamed(members, depth, pieces)
  }

  /** One piece for each item, inside one more bracket. */
  ghost predicate AllLaid(items: seq<Json>, depth: nat, pieces: seq<string>)
    decreases items, 0
  {
    |pieces| == |items| && forall i :: 0 <= i < |items| ==> Laid(items[i], depth + 1, pieces[i])
  }

  ghost predicate AllNamed(members: seq<(string, Json)>, depth: nat, pieces: seq<string>)
    decreases members, 0
  {
    |pieces| == |members| && forall i :: 0 <= i < |members| ==> Named(members[i], depth + 1, pieces[i])
  }

  /** A member: its name, a colon, one space, its value. */
  ghost predicate Named(m: (string, Json), depth: nat, t: string)
    decreases m, 2
  {
    exists u: string :: t == "\"" + EscapeText(EscapeAscii, m.0) + "\"" + ": " + u && Laid(m.1, depth, u)
  }

  lemma LineIs(level: nat)
    ensures PYTHON.newline(level) == Line(level)
  {
    SpacesAre(2 * level);
  }

  lemma {:induction false} SpacesAre(n: nat)
    ensures Spaces(n) == seq(n, _ => ' ')
  {
    if n > 0 {
      SpacesAre(n - 1);
      assert seq(n, _ => ' ') == " " + seq(n - 1, _ => ' ');
    }
  }

  /** A piece in front of the others. */
  lemma {:induction false} ListedCons(p: string, pieces: seq<string>, depth: nat)
    requires pieces != []
    ensures Listed([p] + pieces, depth) == Line(depth) + p + ("," + Listed(pieces, depth))
  {
    hide Line;
    var n, all := |pieces| - 1, [p] + pieces;
    assert all[..n + 1] == [p] + pieces[..n];
    if n == 0 {
      ListedOne(p, depth);
      ListedOne(pieces[0], depth);
      assert pieces == [pieces[0]];
    } else {
      ListedCons(p, pieces[..n], depth);
      assert Listed(all, depth) == Listed([p] + pieces[..n], depth) + "," + (Line(depth) + pieces[n]);
      Associates(Line(depth) + p, "," + Listed(pieces[..n], depth), "," + (Line(depth) + pieces[n]));
    }
  }

  lemma ListedOne(p: string, depth: nat)
    ensures Listed([p], depth) == Line(depth) + p
  {
    assert [p][..0] == [];
  }

  /** What `json.dumps(v, indent=2)` prints is laid out so. */
  lemma {:induction false} DumpsLaid(v: Json, level: nat)
    ensures Laid(v, level, Dumps(PYTHON, v, level))
    decreases v, 1
  {
    match v
    case Arr(items) =>
      if items != [] {
        var pieces := ItemsLaid(items, level);
        LineIs(level);
        hide Listed, Line, DumpItems, AllLaid;
        Opened("[", PYTHON.newline(level + 1), DumpItems(PYTHON, items, level + 1), PYTHON.newline(level), "]");
      }
    case Obj(members) =>
      if members != [] {
        var pieces := MembersLaid(members, level);
        LineIs(level);
        hide Listed, Line, DumpMembers, AllNamed;
        Opened("{", PYTHON.newline(level + 1), DumpMembers(PYTHON, members, level + 1), PYTHON.newline(level), "}");
      }
    case _ =>
  }

  lemma Opened(open: string, nl1: string, inner: string, nl: string, close: string)
    ensures open + nl1 + inner + nl + close == open + (nl1 + inner) + nl + close
  {
    Associates(open, nl1, inner);
  }

  lemma {:induction false} ItemsLaid(items: seq<Json>, level: nat) returns (pieces: seq<string>)
    requires items != []
    ensures AllLaid(items, level, pieces)
    ensures PYTHON.newline(level + 1) + DumpItems(PYTHON, items, level + 1) == Listed(pieces, level + 1)
    decreases items, 0
  {
    var nl, first := PYTHON.newline(level + 1), Dumps(PYTHON, items[0], level + 1);
    DumpsLaid(items[0], level + 1);
    LineIs(level + 1);
    hide DumpItems, Dumps, Line, Listed, Laid, AllLaid;
    if |items| == 1 {
      pieces := [first];
      ListedOne(first, level + 1);
      OneItemsLaid(items, level);
    } else {
      var rest := ItemsLaid(items[1..], level);
      pieces := [first] + rest;
      MoreItemsLaid(items, level, first, rest);
      ListedCons(first, rest, level + 1);
      Commas(nl, first, DumpItems(PYTHON, items[1..], level + 1));
    }
  }

  lemma OneItemsLaid(items: seq<Json>, level: nat)
    requires |items| == 1 && Laid(items[0], level + 1, Dumps(PYTHON, items[0], level + 1))
    ensures AllLaid(items, level, [Dumps(PYTHON, items[0], level + 1)])
    ensures DumpItems(PYTHON, items, level + 1) == Dumps(PYTHON, items[0], level + 1)
  {
    hide Dumps, Laid;
  }

  lemma MoreItemsLaid(items: seq<Json>, level: nat, first: string, rest: seq<string>)
    requires |items| > 1 && first == Dumps(PYTHON, items[0], level + 1)
    requires Laid(items[0], level + 1, first) && AllLaid(items[1..], level, rest)
    ensures AllLaid(items, level, [first] + rest) && rest != []
    ensures DumpItems(PYTHON, items, level + 1) ==
            first + ("," + PYTHON.newline(level + 1)) + DumpItems(PYTHON, items[1..], level + 1)
  {
    hide Dumps, Laid;
    var pieces := [first] + rest;
    assert forall i :: 1 <= i < |items| ==> items[i] == items[1..][i - 1] && pieces[i] == rest[i - 1];
  }

  lemma Commas(nl: string, first: string, rest: string)
    ensures nl + (first + ("," + nl) + rest) == nl + first + ("," + (nl + rest))
  {
  }

  lemma {:induction false} MembersLaid(members: seq<(string, Json)>, level: nat) returns (pieces: seq<string>)
    requires members != []
    ensures AllNamed(members, level, pieces)
    ensures PYTHON.newline(level + 1) + DumpMembers(PYTHON, members, level + 1) == Listed(pieces, level + 1)
    decreases members, 0
  {
    var nl, first := PYTHON.newline(level + 1), DumpMember(PYTHON, members[0], level + 1);
    MemberNamed(members[0], level + 1);
    LineIs(level + 1);
    hide DumpMembers, DumpMember, Line, Listed, Named, AllNamed;
    if |members| == 1 {
      pieces := [first];
      ListedOne(first, level + 1);
      OneMembersLaid(members, level);
    } else {
      var rest := MembersLaid(members[1..], level);
      pieces := [first] + rest;
      MoreMembersLaid(members, level, first, rest);
      ListedCons(first, rest, level + 1);
      Commas(nl, first, DumpMembers(PYTHON, members[1..], level + 1));
    }
  }

  lemma OneMembersLaid(members: seq<(string, Json)>, level: nat)
    requires |members| == 1 && Named(members[0], level + 1, DumpMember(PYTHON, members[0], level + 1))
    ensures AllNamed(members, level, [DumpMember(PYTHON, members[0], level + 1)])
    ensures DumpMembers(PYTHON, members, level + 1) == DumpMember(PYTHON, members[0], level + 1)
  {
    hide DumpMember, Named;
  }

  lemma MoreMembersLaid(members: seq<(string, Json)>, level: nat, first: string, rest: seq<string>)
    requires |members| > 1 && first == DumpMember(PYTHON, members[0], level + 1)
    requires Named(members[0], level + 1, first) && AllNamed(members[1..], level, rest)
    ensures AllNamed(members, level, [first] + rest) && rest != []
    ensures DumpMembers(PYTHON, members, level + 1) ==
            first + ("," + PYTHON.newline(level + 1)) + DumpMembers(PYTHON, members[1..], level + 1)
  {
    hide DumpMember, Named;
    var pieces := [first] + rest;
    assert forall i :: 1 <= i < |members| ==> members[i] == members[1..][i - 1] && pieces[i] == rest[i - 1];
  }

  lemma MemberNamed(m: (string, Json), level: nat)
    ensures Named(m, level, DumpMember(PYTHON, m, level))
    decreases m, 2
  {
    DumpsLaid(m.1, level);
    hide Dumps, Laid, EscapeText, EscapeAscii;
    assert Quote(PYTHON.escape, m.0) == "\"" + EscapeText(EscapeAscii, m.0) + "\"";
    assert ":" + PYTHON.afterColon == ": ";
  }
}

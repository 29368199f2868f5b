/** scripts/index-chromadb.py: overlapping chunks and the ids of the documents they become. */
module Chunking {
  import opened Text
  import opened Lists

  // ------------------------------------------------------------------- windows

  function Window(text: string, start: nat, size: nat): string
    requires start <= |text|
  {
    text[start..Min(start + size, |text|)]
  }

  /** Every window from `start` on, one each `step` characters. */
  function Windows(text: string, start: nat, size: nat, step: nat): seq<string>
    requires step > 0
    decreases |text| - start
  {
    if start >= |text| then [] else [Window(text, start, size)] + Windows(text, start + step, size, step)
  }

  function NonBlank(): string -> bool { (s: string) => !Blank(s) }

  /** What `_chunk_text` returns: a text that fits is one chunk, blank or not; otherwise the
      non-blank windows. */
  function Chunks(text: string, size: nat, overlap: nat): seq<string>
    requires overlap < size
  {
    if |text| <= size then [text] else Keep(Windows(text, 0, size, size - overlap), NonBlank())
  }

  method ChunkText(text: string, size: nat, overlap: nat) returns (chunks: seq<string>)
    requires overlap < size
    ensures chunks == Chunks(text, size, overlap)
  {
    if |text| <= size {
      return [text];
    }
    ManyChunks(text, size, overlap);
    hide Chunks, Through, Blank, Window;
    chunks := [];
    var start: nat := 0;
    while start < |text|
      invariant Through(chunks, text, start, size, overlap) == Chunks(text, size, overlap)
      decreases |text| - start
    {
      NextWindow(chunks, text, start, size, overlap);
      var end := start + size;
      var chunk := Window(text, start, size);
      if !Blank(chunk) {
        chunks := chunks + [chunk];
      }
      start := end - overlap;
    }
    NextWindow(chunks, text, start, size, overlap);
  }

  /** The chunks so far and those of the windows from `start` on. */
  ghost function Through(done: seq<string>, text: string, start: nat, size: nat, overlap: nat): seq<string>
    requires overlap < size
  {
    done + Keep(Windows(text, start, size, size - overlap), NonBlank())
  }

  lemma ManyChunks(text: string, size: nat, overlap: nat)
    requires overlap < size < |text|
    ensures Through([], text, 0, size, overlap) == Chunks(text, size, overlap)
  {
  }

  lemma NextWindow(done: seq<string>, text: string, start: nat, size: nat, overlap: nat)
    requires overlap < size
    ensures Through(done, text, start, size, overlap) ==
            if start >= |text| then done
            else Through(if Blank(Window(text, start, size)) then done else done + [Window(text, start, size)],
                         text, start + size - overlap, size, overlap)
  {
    hide Blank;
  }

  /** ceil(len / step) windows. */
  lemma {:induction false} WindowCount(text: string, start: nat, size: nat, step: nat)
    requires step > 0 && start <= |text|
    ensures |Windows(text, start, size, step)| == (|text| - start + step - 1) / step
    decreases |text| - start
  {
    var n := |text| - start;
    if n == 0 {
      Quotient(step - 1, step, 0);
    } else if n <= step {
      Quotient(n + step - 1, step, 1);
    } else {
      WindowCount(text, start + step, size, step);
      OneMore(n - 1, step);
    }
  }

  lemma OneMore(n: nat, step: nat)
    requires step > 0
    ensures (n + step) / step == n / step + 1
  {
    var q := n / step;
    assert n == step * q + n % step;
    assert (q + 1) * step == step * q + step && (q + 2) * step == step * q + step + step;
    Quotient(n + step, step, q + 1);
  }

  lemma Quotient(n: nat, step: nat, q: nat)
    requires step > 0 && q * step <= n < (q + 1) * step
    ensures n / step == q
  {
    var r := n - q * step;
    assert n == q * step + r && 0 <= r < step;
    QuotientUnique(n / step, n % step, q, r, step);
  }

  lemma QuotientUnique(q: int, r: nat, q': int, r': nat, step: nat)
    requires r < step && r' < step && q * step + r == q' * step + r'
    ensures q == q'
  {
    assert (q - q') * step == r' - r;
    var d := q - q';
    assert d * step == r' - r;
    assert d >= 1 ==> d * step >= step;
    assert d <= -1 ==> d * step + step <= 0;
  }

  /** The k-th window begins k steps in. */
  lemma {:induction false} WindowAt(text: string, start: nat, size: nat, step: nat, k: nat)
    requires step > 0 && k < |Windows(text, start, size, step)|
    ensures start + k * step < |text|
    ensures Windows(text, start, size, step)[k] == text[start + k * step..Min(start + k * step + size, |text|)]
    decreases k
  {
    if k > 0 {
      WindowAt(text, start + step, size, step, k - 1);
      assert (k - 1) * step + step == k * step;
    }
  }

  lemma {:induction false} WindowExists(text: string, start: nat, size: nat, step: nat, k: nat)
    requires step > 0 && start + k * step < |text|
    ensures k < |Windows(text, start, size, step)|
    decreases k
  {
    assert 0 <= k * step;
    if k > 0 {
      assert (k - 1) * step + step == k * step;
      WindowExists(text, start + step, size, step, k - 1);
    }
  }

  /** The k-th piece of `size` characters, one every `size - overlap`. */
  ghost predicate IsPiece(text: string, size: nat, overlap: nat, k: nat, c: string) {
    var at := k * (size - overlap);
    0 <= at < |text| && c == text[at..Min(at + size, |text|)]
  }

  lemma WindowIsPiece(text: string, size: nat, overlap: nat, k: nat)
    requires overlap < size && k < |Windows(text, 0, size, size - overlap)|
    ensures IsPiece(text, size, overlap, k, Windows(text, 0, size, size - overlap)[k])
  {
    hide Windows;
    var step: nat := size - overlap;
    Multiple(k, step);
    WindowAt(text, 0, size, step, k);
  }

  lemma Multiple(k: nat, step: nat)
    ensures 0 <= k * step
  {
  }

  lemma PieceIsWindow(text: string, size: nat, overlap: nat, k: nat, c: string)
    requires overlap < size && IsPiece(text, size, overlap, k, c)
    ensures k < |Windows(text, 0, size, size - overlap)| && Windows(text, 0, size, size - overlap)[k] == c
  {
    hide Windows;
    WindowExists(text, 0, size, size - overlap, k);
    WindowAt(text, 0, size, size - overlap, k);
  }

  lemma WindowIff(text: string, size: nat, overlap: nat, c: string)
    requires overlap < size
    ensures c in Windows(text, 0, size, size - overlap) <==> exists k: nat :: IsPiece(text, size, overlap, k, c)
  {
    hide Windows, IsPiece;
    var ws := Windows(text, 0, size, size - overlap);
    if c in ws {
      var k: nat :| k < |ws| && ws[k] == c;
      WindowIsPiece(text, size, overlap, k);
    }
    if k: nat :| IsPiece(text, size, overlap, k, c) { PieceIsWindow(text, size, overlap, k, c); }
  }

  ghost predicate HasVisible(c: string) { exists i :: 0 <= i < |c| && !IsSpace(c[i]) }

  /** What the chunks are: a text that fits is its own only chunk; otherwise exactly the
      pieces that hold a visible character. */
  lemma ChunkIff(text: string, size: nat, overlap: nat, c: string)
    requires overlap < size
    ensures |text| <= size ==> Chunks(text, size, overlap) == [text]
    ensures |text| > size ==>
              (c in Chunks(text, size, overlap) <==>
               HasVisible(c) && exists k: nat :: IsPiece(text, size, overlap, k, c))
  {
    WindowIff(text, size, overlap, c);
    VisibleIff(c);
    hide IsPiece, HasVisible, Windows, Blank;
    KeepMembers(Windows(text, 0, size, size - overlap), NonBlank());
  }

  lemma VisibleIff(c: string)
    ensures HasVisible(c) <==> !Blank(c)
  {
    hide IsSpace;
  }

  function Drop(s: string, n: nat): string { s[Min(n, |s|)..] }

  /** The windows joined, each without the overlap it shares with the one before. */
  function Tail(ws: seq<string>, overlap: nat): string {
    if ws == [] then [] else Drop(ws[0], overlap) + Tail(ws[1..], overlap)
  }

  function Rejoined(ws: seq<string>, overlap: nat): string {
    if ws == [] then [] else ws[0] + Tail(ws[1..], overlap)
  }

  lemma {:induction false} TailIs(text: string, start: nat, size: nat, overlap: nat)
    requires overlap < size
    ensures Tail(Windows(text, start, size, size - overlap), overlap) == text[Min(start + overlap, |text|)..]
    decreases |text| - start
  {
    hide *;
    var step := size - overlap;
    if start >= |text| {
      TailEnds(text, start, size, overlap);
    } else {
      TailIs(text, start + step, size, overlap);
      var w := Window(text, start, size);
      FirstWindow(text, start, size, step);
      DropsOverlap(text, start, size, overlap);
      TailCons(w, Windows(text, start + step, size, step), overlap);
    }
  }

  lemma TailEnds(text: string, start: nat, size: nat, overlap: nat)
    requires overlap < size && start >= |text|
    ensures Tail(Windows(text, start, size, size - overlap), overlap) == text[Min(start + overlap, |text|)..]
  {
  }

  lemma FirstWindow(text: string, start: nat, size: nat, step: nat)
    requires step > 0 && start < |text|
    ensures Windows(text, start, size, step) == [Window(text, start, size)] + Windows(text, start + step, size, step)
  {
  }

  lemma DropsOverlap(text: string, start: nat, size: nat, overlap: nat)
    requires overlap < size && start < |text|
    ensures Drop(Window(text, start, size), overlap) + text[Min(start + (size - overlap) + overlap, |text|)..] ==
            text[Min(start + overlap, |text|)..]
  {
  }

  lemma TailCons(w: string, ws: seq<string>, overlap: nat)
    ensures Tail([w] + ws, overlap) == Drop(w, overlap) + Tail(ws, overlap)
  {
    assert ([w] + ws)[1..] == ws;
  }

  /** Dropping each later window's overlap rebuilds the text. */
  lemma WindowsRebuild(text: string, size: nat, overlap: nat)
    requires overlap < size
    ensures Rejoined(Windows(text, 0, size, size - overlap), overlap) == text
  {
    if text != [] {
      var step := size - overlap;
      assert Windows(text, 0, size, step) == [Window(text, 0, size)] + Windows(text, step, size, step);
      TailIs(text, step, size, overlap);
    }
  }

  // ------------------------------------------------------------ nothing is split

  /** One of the windows from `start` on holds the whole range. */
  predicate InSomeWindow(n: nat, start: nat, a: nat, b: nat, size: nat, step: nat)
    requires step > 0
    decreases n - start
  {
    start < n && ((start <= a && b <= start + size) || InSomeWindow(n, start + step, a, b, size, step))
  }

  predicate Whole(text: string, a: nat, length: nat, size: nat, overlap: nat)
    requires overlap < size
  {
    InSomeWindow(|text|, 0, a, a + length, size, size - overlap)
  }

  lemma {:induction false} ShortFits(n: nat, start: nat, a: nat, b: nat, size: nat, overlap: nat)
    requires overlap < size && start <= a < n && b - a <= overlap + 1
    ensures InSomeWindow(n, start, a, b, size, size - overlap)
    decreases n - start
  {
    if a >= start + size - overlap { ShortFits(n, start + size - overlap, a, b, size, overlap); }
  }

  lemma {:induction false} AllStartAfter(n: nat, start: nat, a: nat, b: nat, size: nat, step: nat)
    requires step > 0 && a < start
    ensures !InSomeWindow(n, start, a, b, size, step)
    decreases n - start
  {
    if start < n { AllStartAfter(n, start + step, a, b, size, step); }
  }

  /** In a text that needs several windows, all ranges of a given length stay whole exactly
      when they are at most one longer than the overlap. */
  lemma WholeIff(text: string, length: nat, size: nat, overlap: nat)
    requires overlap < size < |text| && 0 < length <= |text|
    ensures (forall a: nat :: a <= |text| - length ==> Whole(text, a, length, size, overlap)) <==> length <= overlap + 1
  {
    var step := size - overlap;
    if length <= overlap + 1 {
      forall a: nat | a <= |text| - length ensures Whole(text, a, length, size, overlap) {
        ShortFits(|text|, 0, a, a + length, size, overlap);
      }
    } else {
      var a := Min(step - 1, |text| - length);
      AllStartAfter(|text|, step, a, a + length, size, step);
      assert !Whole(text, a, length, size, overlap);
    }
  }

  lemma SliceOfSlice(text: string, start: nat, end: nat, a: nat, b: nat)
    requires start <= a <= b <= end <= |text|
    ensures text[start..end][a - start..b - start] == text[a..b]
  {
    var w := text[start..end];
    assert forall i :: a - start <= i < b - start ==> w[i] == text[start + i];
    assert w[a - start..b - start] == text[a..b];
  }

  lemma {:induction false} WindowHolds(text: string, start: nat, a: nat, b: nat, size: nat, step: nat)
    returns (w: string)
    requires step > 0 && a < b <= |text| && InSomeWindow(|text|, start, a, b, size, step)
    ensures w in Windows(text, start, size, step) && Occurs(text[a..b], w) && (Blank(w) ==> Blank(text[a..b]))
    decreases |text| - start
  {
    if start <= a && b <= start + size {
      w := Window(text, start, size);
      SliceOfSlice(text, start, Min(start + size, |text|), a, b);
      assert OccursAt(text[a..b], w, a - start);
    } else {
      w := WindowHolds(text, start + step, a, b, size, step);
    }
  }

  /** Every non-blank passage of at most overlap + 1 characters is whole in a kept chunk. */
  lemma PassageIsKept(text: string, a: nat, b: nat, size: nat, overlap: nat)
    requires overlap < size && a < b <= |text| && b - a <= overlap + 1 && !Blank(text[a..b])
    ensures exists chunk :: chunk in Chunks(text, size, overlap) && Occurs(text[a..b], chunk)
  {
    hide Blank;
    if |text| <= size {
      assert OccursAt(text[a..b], text, a);
      assert text in Chunks(text, size, overlap);
    } else {
      ShortFits(|text|, 0, a, b, size, overlap);
      var w := WindowHolds(text, 0, a, b, size, size - overlap);
      KeepMembers(Windows(text, 0, size, size - overlap), NonBlank());
      assert w in Chunks(text, size, overlap);
    }
  }

  // ------------------------------------------------------------- documents, ids

  function Digits(n: nat): (r: string)
    ensures r != [] && (|r| == 1 <==> n < 10) && forall c :: c in r ==> '0' <= c <= '9'
  {
    if n < 10 then ['0' + n as char] else Digits(n / 10) + ['0' + (n % 10) as char]
  }

  /** The number a digit string denotes. */
  function ValueOf(s: string): int {
    if s == [] then 0 else ValueOf(s[..|s| - 1]) * 10 + (s[|s| - 1] as int - '0' as int)
  }

  lemma {:induction false} DigitsDenote(n: nat)
    ensures ValueOf(Digits(n)) == n
  {
    if n >= 10 {
      DigitsDenote(n / 10);
      var d := Digits(n);
      assert d[..|d| - 1] == Digits(n / 10);
    } else {
      assert Digits(n)[..0] == [];
    }
  }

  lemma {:induction false} DigitsDiffer(m: nat, n: nat)
    requires Digits(m) == Digits(n)
    ensures m == n
  {
    var a, b := Digits(m), Digits(n);
    assert a[|a| - 1] == '0' + (m % 10) as char && b[|b| - 1] == '0' + (n % 10) as char;
    if m >= 10 && n >= 10 {
      assert a[..|a| - 1] == Digits(m / 10) && b[..|b| - 1] == Digits(n / 10);
      DigitsDiffer(m / 10, n / 10);
    }
  }

  /** The text before `_doc_id` hashes it. */
  function RawId(collection: string, source: string, chunk: nat): string {
    collection + ":" + source + ":" + Digits(chunk)
  }

  lemma LastColon(x: string, a: string, y: string, b: string)
    requires ':' !in a && ':' !in b && x + ":" + a == y + ":" + b
    ensures x == y && a == b
  {
    var s := x + ":" + a;
    assert s[|x|] == ':' && s[|y|] == ':';
    assert forall i :: |x| < i < |s| ==> s[i] == a[i - |x| - 1];
    assert forall i :: |y| < i < |s| ==> s[i] == b[i - |y| - 1];
    assert s[..|x|] == x && s[..|y|] == y && s[|x| + 1..] == a && s[|y| + 1..] == b;
  }

  /** Within a collection the id determines the source and the chunk number. */
  lemma RawIdDetermines(collection: string, s: string, i: nat, t: string, j: nat)
    requires RawId(collection, s, i) == RawId(collection, t, j)
    ensures s == t && i == j
  {
    hide Digits;
    LastColon(collection + ":" + s, Digits(i), collection + ":" + t, Digits(j));
    assert (collection + ":" + s)[|collection| + 1..] == s && (collection + ":" + t)[|collection| + 1..] == t;
    DigitsDiffer(i, j);
  }

  datatype Page = Page(number: nat, text: string)

  /** A file under the source directory: its relative path, the path's suffix, the pages
      extracted if it is a PDF, and its text otherwise. */
  datatype File = File(rel: string, suffix: string, pages: seq<Page>, content: string)

  const INDEXABLE := {".md", ".txt", ".py", ".json"}

  /** A path ends in its suffix; pages are numbered upwards. */
  ghost predicate FileOk(f: File) {
    EndsWith(f.rel, f.suffix) && forall i, j :: 0 <= i < j < |f.pages| ==> f.pages[i].number < f.pages[j].number
  }

  function PageSource(rel: string, number: nat): string { rel + ":" + ("p" + Digits(number)) }

  /** The id source a file can use. */
  ghost predicate From(f: File, source: string) {
    if Lower(f.suffix) == ".pdf" then exists n :: source == PageSource(f.rel, n)
    else Lower(f.suffix) in INDEXABLE && source == f.rel
  }

  lemma PageSourceDetermines(rel: string, m: nat, rel': string, n: nat)
    requires PageSource(rel, m) == PageSource(rel', n)
    ensures rel == rel' && m == n
  {
    hide Digits;
    LastColon(rel, "p" + Digits(m), rel', "p" + Digits(n));
    assert ("p" + Digits(m))[1..] == Digits(m) && ("p" + Digits(n))[1..] == Digits(n);
    DigitsDiffer(m, n);
  }

  lemma TextIsNoPage(f: File, rel: string, n: nat)
    requires FileOk(f) && Lower(f.suffix) in INDEXABLE
    ensures f.rel != PageSource(rel, n)
  {
    hide Digits;
    var s := f.suffix;
    assert s != [] && f.rel[|f.rel| - 1] == s[|s| - 1] && Lower(s)[|s| - 1] in {'d', 't', 'y', 'n'};
    assert !('0' <= s[|s| - 1] <= '9');
    var p := PageSource(rel, n);
    assert p[|p| - 1] == Digits(n)[|Digits(n)| - 1] && Digits(n)[|Digits(n)| - 1] in Digits(n);
  }

  /** Two files never share a source. */
  lemma SourceNamesItsFile(f: File, g: File, source: string)
    requires FileOk(f) && FileOk(g) && From(f, source) && From(g, source)
    ensures f.rel == g.rel
  {
    hide PageSource, Lower;
    if Lower(f.suffix) == ".pdf" {
      var m :| source == PageSource(f.rel, m);
      if Lower(g.suffix) == ".pdf" {
        var n :| source == PageSource(g.rel, n);
        PageSourceDetermines(f.rel, m, g.rel, n);
      } else {
        TextIsNoPage(g, f.rel, m);
      }
    } else if Lower(g.suffix) == ".pdf" {
      var n :| source == PageSource(g.rel, n);
      TextIsNoPage(f, g.rel, n);
    }
  }

  datatype Doc = Doc(id: string, document: string, chunk: nat)

  /** The chunks of one text under one source. */
  datatype Group = Group(source: string, chunks: seq<string>)

  /** How the builder calls the chunker. */
  datatype Sizes = Sizes(size: nat, overlap: nat)

  function GroupDocs(collection: string, g: Group): seq<Doc> {
    seq(|g.chunks|, i requires 0 <= i < |g.chunks| => Doc(RawId(collection, g.source, i), g.chunks[i], i))
  }

  function Docs(collection: string, groups: seq<Group>): seq<Doc> {
    if groups == [] then [] else Docs(collection, groups[..|groups| - 1]) + GroupDocs(collection, groups[|groups| - 1])
  }

  function PageGroups(f: File, n: nat, z: Sizes): seq<Group>
    requires n <= |f.pages| && z.overlap < z.size
  {
    seq(n, i requires 0 <= i < n => Group(PageSource(f.rel, f.pages[i].number),
                                          Chunks(f.pages[i].text, z.size, z.overlap)))
  }

  function FileGroups(f: File, z: Sizes): seq<Group>
    requires z.overlap < z.size
  {
    if Lower(f.suffix) == ".pdf" then PageGroups(f, |f.pages|, z)
    else if Lower(f.suffix) in INDEXABLE && !Blank(f.content) then [Group(f.rel, Chunks(f.content, z.size, z.overlap))]
    else []
  }

  function Groups(files: seq<File>, z: Sizes): seq<Group>
    requires z.overlap < z.size
  {
    if files == [] then [] else Groups(files[..|files| - 1], z) + FileGroups(files[|files| - 1], z)
  }

  ghost predicate DistinctSources(gs: seq<Group>) { forall i, j :: 0 <= i < j < |gs| ==> gs[i].source != gs[j].source }
  ghost predicate DistinctIds(ds: seq<Doc>) { forall i, j :: 0 <= i < j < |ds| ==> ds[i].id != ds[j].id }

  lemma FileSources(f: File, z: Sizes)
    requires FileOk(f) && z.overlap < z.size
    ensures DistinctSources(FileGroups(f, z))
    ensures forall i :: 0 <= i < |FileGroups(f, z)| ==> From(f, FileGroups(f, z)[i].source)
  {
    hide Chunks, PageSource, Lower, Blank;
    var gs := FileGroups(f, z);
    if Lower(f.suffix) == ".pdf" {
      forall i, j | 0 <= i < j < |gs| ensures gs[i].source != gs[j].source {
        if gs[i].source == gs[j].source {
          PageSourceDetermines(f.rel, f.pages[i].number, f.rel, f.pages[j].number);
        }
      }
    }
  }

  lemma {:induction false} AllSourcesDistinct(files: seq<File>, z: Sizes)
    requires z.overlap < z.size && forall f :: f in files ==> FileOk(f)
    requires forall i, j :: 0 <= i < j < |files| ==> files[i].rel != files[j].rel
    ensures DistinctSources(Groups(files, z))
    ensures forall g :: g in Groups(files, z) ==> exists k :: 0 <= k < |files| && From(files[k], g.source)
  {
    hide FileGroups, From, FileOk;
    if files != [] {
      var n := |files| - 1;
      var front, f := files[..n], files[n];
      AllSourcesDistinct(front, z);
      FileSources(f, z);
      var a, b := Groups(front, z), FileGroups(f, z);
      forall i, j | 0 <= i < |a| && 0 <= j < |b| ensures a[i].source != b[j].source {
        assert a[i] in a;
        var k :| 0 <= k < |front| && From(front[k], a[i].source);
        if a[i].source == b[j].source { SourceNamesItsFile(files[k], f, a[i].source); }
      }
      forall g | g in a + b ensures exists k :: 0 <= k < |files| && From(files[k], g.source) {
        if g in a {
          var k :| 0 <= k < |front| && From(front[k], g.source);
          assert files[k] == front[k];
        } else {
          assert From(files[n], g.source);
        }
      }
    }
  }

  lemma {:induction false} DocsOfDistinctSources(collection: string, gs: seq<Group>)
    requires DistinctSources(gs)
    ensures DistinctIds(Docs(collection, gs))
    ensures forall d :: d in Docs(collection, gs) ==>
              exists k :: 0 <= k < |gs| && d.id == RawId(collection, gs[k].source, d.chunk)
  {
    hide RawId;
    if gs != [] {
      var n := |gs| - 1;
      var front := gs[..n];
      DocsOfDistinctSources(collection, front);
      var a, b := Docs(collection, front), GroupDocs(collection, gs[n]);
      forall i, j | 0 <= i < j < |b| ensures b[i].id != b[j].id {
        if b[i].id == b[j].id { RawIdDetermines(collection, gs[n].source, i, gs[n].source, j); }
      }
      forall i, j | 0 <= i < |a| && 0 <= j < |b| ensures a[i].id != b[j].id {
        assert a[i] in a;
        var k :| 0 <= k < |front| && a[i].id == RawId(collection, front[k].source, a[i].chunk);
        if a[i].id == b[j].id { RawIdDetermines(collection, front[k].source, a[i].chunk, gs[n].source, j); }
      }
      forall d | d in a + b ensures exists k :: 0 <= k < |gs| && d.id == RawId(collection, gs[k].source, d.chunk) {
        if d in a {
          var k :| 0 <= k < |front| && d.id == RawId(collection, front[k].source, d.chunk);
          assert gs[k] == front[k];
        } else {
          assert d.id == RawId(collection, gs[n].source, d.chunk);
        }
      }
    }
  }

  /** `_build_knowledge_docs`: nested loops over files, pages and chunks. All ids of the
      collection are distinct. */
  method BuildKnowledgeDocs(collection: string, files: seq<File>, z: Sizes) returns (docs: seq<Doc>)
    requires z.overlap < z.size && forall f :: f in files ==> FileOk(f)
    requires forall i, j :: 0 <= i < j < |files| ==> files[i].rel != files[j].rel
    ensures docs == Docs(collection, Groups(files, z)) && DistinctIds(docs)
  {
    hide Docs, FileOk, DistinctSources, DistinctIds, Chunks, Blank, PageSource;
    docs := [];
    EmptyDocs(collection);
    for n := 0 to |files|
      invariant docs == Docs(collection, Groups(files[..n], z))
    {
      var f := files[n];
      ghost var done := Groups(files[..n], z);
      assert files[..n + 1][..n] == files[..n];
      assert Groups(files[..n + 1], z) == done + FileGroups(f, z);
      if Lower(f.suffix) == ".pdf" {
        assert done + PageGroups(f, 0, z) == done;
        for p := 0 to |f.pages|
          invariant docs == Docs(collection, done + PageGroups(f, p, z))
        {
          var source := PageSource(f.rel, f.pages[p].number);
          var chunks := ChunkText(f.pages[p].text, z.size, z.overlap);
          assert PageGroups(f, p + 1, z) == PageGroups(f, p, z) + [Group(source, chunks)];
          assert done + PageGroups(f, p + 1, z) == done + PageGroups(f, p, z) + [Group(source, chunks)];
          DocsSnoc(collection, done + PageGroups(f, p, z), Group(source, chunks));
          docs := AddChunks(docs, collection, source, chunks);
        }
      } else if Lower(f.suffix) in INDEXABLE && !Blank(f.content) {
        var chunks := ChunkText(f.content, z.size, z.overlap);
        DocsSnoc(collection, done, Group(f.rel, chunks));
        docs := AddChunks(docs, collection, f.rel, chunks);
      } else {
        assert done + [] == done;
      }
    }
    assert files[..|files|] == files;
    AllSourcesDistinct(files, z);
    DocsOfDistinctSources(collection, Groups(files, z));
  }

  /** One text of the collection and the name it goes under: a page of a PDF, or the whole
      of another indexable file that is not blank. */
  ghost predicate TextOf(f: File, source: string, text: string) {
    if Lower(f.suffix) == ".pdf" then
      exists page :: page in f.pages && text == page.text && source == f.rel + ":" + ("p" + Digits(page.number))
    else
      && Lower(f.suffix) in {".md", ".txt", ".py", ".json"} && source == f.rel && text == f.content
      && exists i :: 0 <= i < |f.content| && !IsSpace(f.content[i])
  }

  /** Chunk `i` of that text, under its own id. */
  ghost predicate IsDoc(collection: string, source: string, text: string, z: Sizes, i: nat, d: Doc)
    requires z.overlap < z.size
  {
    && i < |Chunks(text, z.size, z.overlap)|
    && d == Doc(collection + ":" + source + ":" + Digits(i), Chunks(text, z.size, z.overlap)[i], i)
  }

  /** The documents of a collection are exactly the chunks of its texts, each under the id
      of its own text and number. */
  lemma DocIff(collection: string, files: seq<File>, z: Sizes, d: Doc)
    requires z.overlap < z.size
    ensures d in Docs(collection, Groups(files, z)) <==>
            exists f, source, text, i: nat ::
              f in files && TextOf(f, source, text) && IsDoc(collection, source, text, z, i, d)
  {
    hide Chunks, Digits, Lower;
    InDocs(collection, Groups(files, z), d);
    hide RawId;
    if g, i: nat :| g in Groups(files, z) && IsDocOf(collection, g, i, d) {
      var f := GroupFrom(files, z, g);
      var source, text := GroupText(f, z, g);
      RawIdIs(collection, source, i);
      assert f in files && TextOf(f, source, text) && IsDoc(collection, source, text, z, i, d);
    }
    if f, source, text, i: nat :| f in files && TextOf(f, source, text) && IsDoc(collection, source, text, z, i, d) {
      var g := Group(source, Chunks(text, z.size, z.overlap));
      TextGroup(f, z, source, text);
      GroupStays(files, z, f, g);
      RawIdIs(collection, source, i);
      assert IsDocOf(collection, g, i, d);
    }
  }

  lemma RawIdIs(collection: string, source: string, i: nat)
    ensures RawId(collection, source, i) == collection + ":" + source + ":" + Digits(i)
  {
    hide Digits;
  }

  ghost predicate IsDocOf(collection: string, g: Group, i: nat, d: Doc) {
    i < |g.chunks| && d == Doc(RawId(collection, g.source, i), g.chunks[i], i)
  }

  lemma {:induction false} InDocs(collection: string, gs: seq<Group>, d: Doc)
    ensures d in Docs(collection, gs) <==> exists g, i: nat :: g in gs && IsDocOf(collection, g, i, d)
  {
    hide RawId;
    if gs != [] {
      var n := |gs| - 1;
      InDocs(collection, gs[..n], d);
      var last := GroupDocs(collection, gs[n]);
      assert Docs(collection, gs) == Docs(collection, gs[..n]) + last;
      assert gs == gs[..n] + [gs[n]];
      if d in last {
        var i: nat :| i < |last| && last[i] == d;
        assert gs[n] in gs && IsDocOf(collection, gs[n], i, d);
      }
      if i: nat :| IsDocOf(collection, gs[n], i, d) { assert last[i] == d; }
    }
  }

  lemma {:induction false} GroupFrom(files: seq<File>, z: Sizes, g: Group) returns (f: File)
    requires z.overlap < z.size && g in Groups(files, z)
    ensures f in files && g in FileGroups(f, z)
  {
    hide FileGroups;
    var n := |files| - 1;
    if g in FileGroups(files[n], z) { f := files[n]; } else { f := GroupFrom(files[..n], z, g); }
  }

  lemma {:induction false} GroupStays(files: seq<File>, z: Sizes, f: File, g: Group)
    requires z.overlap < z.size && f in files && g in FileGroups(f, z)
    ensures g in Groups(files, z)
  {
    hide FileGroups;
    var n := |files| - 1;
    if f != files[n] {
      assert f in files[..n];
      GroupStays(files[..n], z, f, g);
    }
  }

  lemma GroupText(f: File, z: Sizes, g: Group) returns (source: string, text: string)
    requires z.overlap < z.size && g in FileGroups(f, z)
    ensures TextOf(f, source, text) && g == Group(source, Chunks(text, z.size, z.overlap))
  {
    hide Chunks, Digits, Lower, IsSpace;
    source := g.source;
    if Lower(f.suffix) == ".pdf" {
      var i: nat :| i < |f.pages| && g == PageGroups(f, |f.pages|, z)[i];
      text := f.pages[i].text;
      assert f.pages[i] in f.pages;
    } else {
      text := f.content;
    }
  }

  lemma TextGroup(f: File, z: Sizes, source: string, text: string)
    requires z.overlap < z.size && TextOf(f, source, text)
    ensures Group(source, Chunks(text, z.size, z.overlap)) in FileGroups(f, z)
  {
    hide Chunks, Digits, Lower, IsSpace;
    if Lower(f.suffix) == ".pdf" {
      var page :| page in f.pages && text == page.text && source == f.rel + ":" + ("p" + Digits(page.number));
      var i: nat :| i < |f.pages| && f.pages[i] == page;
      assert PageGroups(f, |f.pages|, z)[i] == Group(source, Chunks(text, z.size, z.overlap));
    }
  }

  lemma EmptyDocs(collection: string)
    ensures Docs(collection, []) == []
  {
  }

  lemma DocsSnoc(collection: string, gs: seq<Group>, g: Group)
    ensures Docs(collection, gs + [g]) == Docs(collection, gs) + GroupDocs(collection, g)
  {
    assert (gs + [g])[..|gs|] == gs;
  }

  method AddChunks(docs: seq<Doc>, collection: string, source: string, chunks: seq<string>) returns (r: seq<Doc>)
    ensures r == docs + GroupDocs(collection, Group(source, chunks))
  {
    hide RawId;
    r := docs;
    for i := 0 to |chunks|
      invariant r == docs + GroupDocs(collection, Group(source, chunks))[..i]
    {
      r := r + [Doc(RawId(collection, source, i), chunks[i], i)];
    }
  }
}

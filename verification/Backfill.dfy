/** scripts/backfill_pdf_signature_status.py: list, read owners by identity, dry-run, and
    only then re-index, verifying each write before the next one. The server logs every
    call it receives and may answer anything; what the run may and must do is stated about
    that log. */
module Backfill {
  import opened Text
  import opened Lists

  const AFFECTED := "check_failed"

  /** A manifest row, reduced to the fields the tool reads. */
  datatype Row = Row(key: string, owner: Option<string>, modifier: Option<string>, status: Option<string>,
                     deleted: bool, isPrivate: bool, parseTimeout: bool, pages: Option<int>)

  /** A row and the layer it was listed under. */
  datatype Entry = Entry(layer: string, row: Row)

  /** What one chunk says about itself. */
  datatype Chunk = Chunk(user: Option<string>, sourceKey: Option<string>, hash: Option<string>, status: Option<string>)

  // ----------------------------------------------------------------- the server

  datatype ListReply = HttpError | Page(items: seq<Row>, total: Option<int>)
  datatype ChunkReply = Missing(status: int) | Got(chunk: Chunk)
  datatype PostReply = PostReply(status: int, signature: Option<string>)

  /** One request and its answer. */
  datatype Call =
    | Listed(layer: string, offset: nat, listing: ListReply)
    | Probed(docId: string, got: ChunkReply)
    | Posted(file: string, dry: bool, post: PostReply)

  /** The memory server: any answer to any request, for `lifetime` calls; after that the
      transport fails, which every caller sees as status 0. */
  class Server {
    const lifetime: nat
    const onList: (nat, string, nat) -> ListReply
    const onProbe: (nat, string) -> ChunkReply
    const onPost: (nat, string, bool) -> PostReply
    var log: seq<Call>

    constructor (lifetime: nat, onList: (nat, string, nat) -> ListReply, onProbe: (nat, string) -> ChunkReply,
                 onPost: (nat, string, bool) -> PostReply)
      ensures log == [] && this.lifetime == lifetime
      ensures this.onList == onList && this.onProbe == onProbe && this.onPost == onPost
    {
      this.lifetime, this.onList, this.onProbe, this.onPost, log := lifetime, onList, onProbe, onPost, [];
    }

    function ListAnswer(call: nat, layer: string, offset: nat): ListReply {
      if call < lifetime then onList(call, layer, offset) else HttpError
    }

    method List(layer: string, offset: nat) returns (r: ListReply)
      modifies this
      ensures log == old(log) + [Listed(layer, offset, r)] && r == ListAnswer(old(|log|), layer, offset)
    {
      r := ListAnswer(|log|, layer, offset);
      log := log + [Listed(layer, offset, r)];
    }

    method Probe(docId: string) returns (r: ChunkReply)
      modifies this
      ensures log == old(log) + [Probed(docId, r)]
      ensures r == if old(|log|) < lifetime then onProbe(old(|log|), docId) else Missing(0)
    {
      r := if |log| < lifetime then onProbe(|log|, docId) else Missing(0);
      log := log + [Probed(docId, r)];
    }

    method PostIndex(file: string, dry: bool) returns (r: PostReply)
      modifies this
      ensures log == old(log) + [Posted(file, dry, r)]
      ensures r == if old(|log|) < lifetime then onPost(old(|log|), file, dry) else PostReply(0, None)
    {
      r := if |log| < lifetime then onPost(|log|, file, dry) else PostReply(0, None);
      log := log + [Posted(file, dry, r)];
    }
  }

  // ------------------------------------------------------------------ listing

  function Tagged(layer: string, rows: seq<Row>): seq<Entry> {
    seq(|rows|, i requires 0 <= i < |rows| => Entry(layer, rows[i]))
  }

  function EntriesOf(c: Call): seq<Entry> {
    if c.Listed? && c.listing.Page? then Tagged(c.layer, c.listing.items) else []
  }

  /** Every row the server listed, in order. */
  function Entries(calls: seq<Call>): seq<Entry> {
    if calls == [] then [] else Entries(calls[..|calls| - 1]) + EntriesOf(calls[|calls| - 1])
  }

  lemma EntriesSnoc(calls: seq<Call>, c: Call)
    ensures Entries(calls + [c]) == Entries(calls) + EntriesOf(c)
  {
    assert (calls + [c])[..|calls|] == calls;
  }

  lemma {:induction false} EntriesConcat(a: seq<Call>, b: seq<Call>)
    ensures Entries(a + b) == Entries(a) + Entries(b)
  {
    if b == [] {
      assert a + b == a;
    } else {
      hide Entries, EntriesOf;
      var n := |b| - 1;
      EntriesConcat(a, b[..n]);
      Associates(a, b[..n], [b[n]]);
      assert b == b[..n] + [b[n]];
      EntriesSnoc(a + b[..n], b[n]);
      EntriesSnoc(b[..n], b[n]);
      Associates(Entries(a), Entries(b[..n]), EntriesOf(b[n]));
    }
  }

  function Live(): Entry -> bool { (e: Entry) => !e.row.deleted }
  function Affected(): Entry -> bool { (e: Entry) => e.row.status == Some(AFFECTED) }

  /** One page of the walk: where it starts, and whether another one follows. */
  ghost predicate PageOk(layer: string, before: seq<Call>, c: Call, more: bool) {
    && c.Listed? && c.layer == layer && c.listing.Page? && c.offset == |Entries(before)|
    && (more <==> c.listing.items != [] && c.listing.total.Some?
                  && c.offset + |c.listing.items| < c.listing.total.value)
  }

  /** A complete walk over a layer: page after page, each at the end of the one before. */
  ghost predicate Walk(layer: string, calls: seq<Call>) {
    calls != [] && forall k :: 0 <= k < |calls| ==> PageOk(layer, calls[..k], calls[k], k < |calls| - 1)
  }

  /** Call `k` of a listing that began when the server had received `first` calls: each page
      is asked for where the last one ended, and the answer is the server's own. */
  ghost predicate Asked(server: Server, layer: string, first: nat, calls: seq<Call>, k: nat)
    requires k < |calls|
  {
    calls[k] == Listed(layer, |Entries(calls[..k])|, server.ListAnswer(first + k, layer, |Entries(calls[..k])|))
  }

  /** `list_layer`: for every server, either some page failed, or the rows are exactly the
      non-deleted ones of a complete walk, in order and once each. */
  method ListLayer(server: Server, layer: string) returns (rows: Option<seq<Entry>>, ghost calls: seq<Call>)
    modifies server
    ensures server.log == old(server.log) + calls && forall k :: 0 <= k < |calls| ==> calls[k].Listed?
    ensures rows.Some? ==> Walk(layer, calls) && rows.value == Keep(Entries(calls), Live())
    ensures rows.None? ==> calls != [] && calls[|calls| - 1].listing.HttpError?
    ensures forall k :: 0 <= k < |calls| ==> Asked(server, layer, old(|server.log|), calls, k)
    ensures calls != [] && forall k :: 0 <= k < |calls| - 1 ==> PageOk(layer, calls[..k], calls[k], true)
  {
    hide Keep, Entries, Asked;
    var kept: seq<Entry>, offset: nat := [], 0;
    calls := [];
    NothingListed();
    while true
      invariant server.log == old(server.log) + calls && forall k :: 0 <= k < |calls| ==> calls[k].Listed?
      invariant forall k :: 0 <= k < |calls| ==> PageOk(layer, calls[..k], calls[k], true)
      invariant forall k :: 0 <= k < |calls| ==> Asked(server, layer, old(|server.log|), calls, k)
      invariant kept == Keep(Entries(calls), Live()) && offset == |Entries(calls)|
      decreases server.lifetime - |server.log|
    {
      var page := server.List(layer, offset);
      ghost var c, before := Listed(layer, offset, page), calls;
      calls := calls + [c];
      assert server.log == old(server.log) + calls;
      StillAsked(server, layer, old(|server.log|), before, c);
      if page.HttpError? { return None, calls; }
      EntriesSnoc(before, c);
      KeepConcat(Entries(before), EntriesOf(c), Live());
      kept := kept + Keep(Tagged(layer, page.items), Live());
      offset := offset + |page.items|;
      if page.items == [] || page.total.None? || offset >= page.total.value { return Some(kept), calls; }
    }
  }

  lemma StillAsked(server: Server, layer: string, first: nat, before: seq<Call>, c: Call)
    requires forall k :: 0 <= k < |before| ==> Asked(server, layer, first, before, k)
    ensures var calls := before + [c];
            && (forall k :: 0 <= k < |before| ==> Asked(server, layer, first, calls, k))
            && (forall k :: 0 <= k < |before| ==> calls[..k] == before[..k] && calls[k] == before[k])
            && calls[..|before|] == before && calls[|before|] == c
            && (c == Listed(layer, |Entries(before)|, server.ListAnswer(first + |before|, layer, |Entries(before)|)) ==>
                  Asked(server, layer, first, calls, |before|))
  {
    hide Entries;
    var calls := before + [c];
    assert calls[..|before|] == before;
    forall k | 0 <= k < |before| ensures Asked(server, layer, first, calls, k) {
      assert Asked(server, layer, first, before, k) && calls[..k] == before[..k];
    }
  }

  lemma NothingListed()
    ensures Entries([]) == [] && Keep([], Live()) == []
  {
  }

  /** A page of one fixed list, with its true length. */
  ghost predicate ServesFrom(all: seq<Row>, c: Call) {
    c.Listed? && c.offset <= |all| ==>
      && c.listing.Page? && c.listing.total == Some(|all|)
      && c.offset + |c.listing.items| <= |all| && c.listing.items == all[c.offset..c.offset + |c.listing.items|]
      && (c.offset < |all| ==> c.listing.items != [])
  }

  /** One page more of the same list. */
  lemma PageOfAll(layer: string, before: seq<Call>, c: Call, more: bool, all: seq<Row>)
    requires PageOk(layer, before, c, more) && ServesFrom(all, c)
    requires |Entries(before)| <= |all| && Entries(before) == Tagged(layer, all[..|Entries(before)|])
    ensures |Entries(before + [c])| <= |all| && Entries(before + [c]) == Tagged(layer, all[..|Entries(before + [c])|])
    ensures !more ==> Entries(before + [c]) == Tagged(layer, all)
  {
    hide Entries, Tagged;
    EntriesSnoc(before, c);
    var i, j := c.offset, c.offset + |c.listing.items|;
    TaggedConcat(layer, all, i, j);
    TaggedSize(layer, all[..j]);
    assert Entries(before + [c]) == Tagged(layer, all[..j]);
    assert !more ==> j == |all|;
  }

  /** Against a list that does not change while it is read, served in arbitrary non-empty
      pages, a complete walk has seen exactly that list. */
  lemma WalkSeesAll(layer: string, calls: seq<Call>, all: seq<Row>)
    requires Walk(layer, calls) && forall k :: 0 <= k < |calls| ==> ServesFrom(all, calls[k])
    ensures Entries(calls) == Tagged(layer, all)
  {
    hide Entries, Tagged, PageOk, ServesFrom;
    var n := |calls| - 1;
    WalkedSoFar(layer, calls, all, n);
    assert calls == calls[..n] + [calls[n]] && PageOk(layer, calls[..n], calls[n], false);
    PageOfAll(layer, calls[..n], calls[n], false, all);
  }

  lemma {:induction false} WalkedSoFar(layer: string, calls: seq<Call>, all: seq<Row>, k: nat)
    requires k <= |calls|
    requires forall j :: 0 <= j < k ==> PageOk(layer, calls[..j], calls[j], true) && ServesFrom(all, calls[j])
    ensures k <= |Entries(calls[..k])| <= |all| && Entries(calls[..k]) == Tagged(layer, all[..|Entries(calls[..k])|])
    decreases k
  {
    if k == 0 {
      hide PageOk, ServesFrom;
      assert calls[..k] == [];
    } else {
      hide *;
      WalkedSoFar(layer, calls, all, k - 1);
      var before, c := calls[..k - 1], calls[k - 1];
      assert calls[..k] == before + [c] && PageOk(layer, before, c, true);
      PageOfAll(layer, before, c, true, all);
      PageIsProgress(layer, before, c);
    }
  }

  /** A page after which another follows brought at least one row. */
  lemma PageIsProgress(layer: string, before: seq<Call>, c: Call)
    requires PageOk(layer, before, c, true)
    ensures |Entries(before + [c])| > |Entries(before)|
  {
    EntriesSnoc(before, c);
    TaggedSize(layer, c.listing.items);
    hide Entries;
  }

  /** A server that walks one list, whatever the call and the page sizes. */
  ghost predicate Stable(server: Server, layer: string, all: seq<Row>) {
    forall n: nat, off: nat :: ServesFrom(all, Listed(layer, off, server.onList(n, layer, off)))
  }

  /** Against a stable list the walk ends after at most one page more than there are rows,
      each page but the last bringing at least one of the remaining rows; unless the
      transport fails within that many calls, it returns exactly the non-deleted rows, in
      order and once each. */
  method ListStableLayer(server: Server, layer: string, ghost all: seq<Row>)
    returns (rows: Option<seq<Entry>>, ghost calls: seq<Call>)
    requires Stable(server, layer, all)
    modifies server
    ensures server.log == old(server.log) + calls && |calls| <= |all| + 1
    ensures old(|server.log|) + |all| < server.lifetime ==> rows == Some(Keep(Tagged(layer, all), Live()))
    ensures rows.Some? ==> rows == Some(Keep(Tagged(layer, all), Live()))
  {
    hide Keep, Tagged, Walk, PageOk, Asked, Stable;
    ghost var first := |server.log|;
    rows, calls := ListLayer(server, layer);
    StablePages(server, layer, all, first, calls);
    if rows.Some? { StableRows(layer, calls, all); }
  }

  lemma StablePages(server: Server, layer: string, all: seq<Row>, first: nat, calls: seq<Call>)
    requires Stable(server, layer, all) && calls != [] && forall k :: 0 <= k < |calls| ==> calls[k].Listed?
    requires forall k :: 0 <= k < |calls| ==> Asked(server, layer, first, calls, k)
    requires forall k :: 0 <= k < |calls| - 1 ==> PageOk(layer, calls[..k], calls[k], true)
    ensures |calls| <= |all| + 1
    ensures first + |all| < server.lifetime ==> calls[|calls| - 1].listing.Page?
    ensures forall j :: 0 <= j < |calls| && calls[j].listing.Page? ==> ServesFrom(all, calls[j])
  {
    hide Keep, Entries, Tagged, PageOk, Asked, Stable, ServesFrom;
    var n := |calls| - 1;
    forall j | 0 <= j < n ensures ServesFrom(all, calls[j]) && calls[j].listing.Page? {
      APage(layer, calls[..j], calls[j]);
      StableServes(server, layer, all, first, calls, j);
    }
    WalkedSoFar(layer, calls, all, n);
    StableServes(server, layer, all, first, calls, n);
  }

  lemma APage(layer: string, before: seq<Call>, c: Call)
    requires PageOk(layer, before, c, true)
    ensures c.Listed? && c.listing.Page?
  {
  }

  lemma StableRows(layer: string, calls: seq<Call>, all: seq<Row>)
    requires Walk(layer, calls) && forall k :: 0 <= k < |calls| ==> calls[k].Listed?
    requires forall j :: 0 <= j < |calls| && calls[j].listing.Page? ==> ServesFrom(all, calls[j])
    ensures Entries(calls) == Tagged(layer, all)
  {
    hide Entries, Tagged, PageOk, Walk, ServesFrom;
    forall j | 0 <= j < |calls| ensures ServesFrom(all, calls[j]) { WalkHasPages(layer, calls, j); }
    WalkSeesAll(layer, calls, all);
  }

  /** An answered page of a stable server, and one the transport lets through. */
  lemma StableServes(server: Server, layer: string, all: seq<Row>, first: nat, calls: seq<Call>, k: nat)
    requires Stable(server, layer, all) && k < |calls| && Asked(server, layer, first, calls, k)
    ensures calls[k].listing.Page? || first + k < server.lifetime ==> ServesFrom(all, calls[k])
    ensures first + k < server.lifetime && |Entries(calls[..k])| <= |all| ==> calls[k].listing.Page?
    ensures calls[k].Listed? && (PageOk(layer, calls[..k], calls[k], true) ==> calls[k].listing.Page?)
  {
    hide Entries;
    var off := |Entries(calls[..k])|;
    assert ServesFrom(all, Listed(layer, off, server.onList(first + k, layer, off)));
  }

  lemma WalkHasPages(layer: string, calls: seq<Call>, k: nat)
    requires Walk(layer, calls) && k < |calls|
    ensures calls[k].Listed? && calls[k].listing.Page?
  {
    assert PageOk(layer, calls[..k], calls[k], k < |calls| - 1);
  }

  lemma TaggedSize(layer: string, rows: seq<Row>)
    ensures |Tagged(layer, rows)| == |rows|
  {
  }

  lemma TaggedConcat(layer: string, all: seq<Row>, i: nat, j: nat)
    requires i <= j <= |all|
    ensures Tagged(layer, all[..i]) + Tagged(layer, all[i..j]) == Tagged(layer, all[..j])
    ensures all[..|all|] == all
  {
  }

  // ------------------------------------------------- who owns the indexed chunks

  /** The hash that names chunk 0 of a page. */
  type Naming = (string, int) -> string

  datatype ChunkRead = Found(docId: string, chunk: Chunk) | NotFound | ReadFailed

  /** What a row of probes amounts to: its last answer decides. */
  function ReadOf(probes: seq<Call>): ChunkRead {
    if probes == [] || !probes[|probes| - 1].Probed? then NotFound
    else match probes[|probes| - 1].got
      case Got(chunk) => Found(probes[|probes| - 1].docId, chunk)
      case Missing(status) => if status == 404 then NotFound else ReadFailed
  }

  /** Pages 1, 2, ... by name; only a 404 moves on; "not found" only after the last page. */
  ghost predicate ProbesOk(name: Naming, source: string, pages: Option<int>, probes: seq<Call>) {
    && (forall k :: 0 <= k < |probes| ==> probes[k].Probed? && probes[k].docId == name(source, k + 1))
    && (forall k :: 0 <= k < |probes| - 1 ==> probes[k].got == Missing(404))
    && (probes != [] ==> pages.Some? && |probes| <= pages.value)
    && (ReadOf(probes).NotFound? && pages.Some? ==> |probes| >= pages.value)
  }

  /** `read_chunk_owner` */
  method ReadChunkOwner(server: Server, name: Naming, source: string, pages: Option<int>)
    returns (r: ChunkRead, ghost probes: seq<Call>)
    modifies server
    ensures server.log == old(server.log) + probes
    ensures ProbesOk(name, source, pages, probes) && r == ReadOf(probes)
  {
    probes := [];
    if pages.None? { return NotFound, probes; }
    var page := 1;
    while page <= pages.value
      invariant page == |probes| + 1 && (probes != [] ==> |probes| <= pages.value)
      invariant server.log == old(server.log) + probes
      invariant forall k :: 0 <= k < |probes| ==>
                  probes[k].Probed? && probes[k].docId == name(source, k + 1) && probes[k].got == Missing(404)
      decreases pages.value - page
    {
      var docId := name(source, page);
      var reply := server.Probe(docId);
      probes := probes + [Probed(docId, reply)];
      match reply {
        case Got(chunk) => return Found(docId, chunk), probes;
        case Missing(status) => if status != 404 { return ReadFailed, probes; }
      }
      page := page + 1;
    }
    return NotFound, probes;
  }

  // ------------------------------------------------------------ the pure guards

  function DeriveSourceKey(e: Entry): string {
    if StartsWith(e.row.key, e.layer + "/") then e.row.key[|e.layer| + 1..] else e.row.key
  }

  function IndexFileParam(e: Entry, caller: string): string {
    if StartsWith(e.row.key, caller + "/") || StartsWith(e.row.key, e.layer + "/") then e.row.key
    else if e.row.isPrivate then caller + "/" + e.layer + "/" + e.row.key
    else e.layer + "/" + e.row.key
  }

  datatype Why =
    | ManifestModifierNotCaller | ParseTimeout | ChunkNotFound | ChunkReadFailed | ChunkOwnerMissing
    | ChunkSourceKeyMismatch | ChunkOwnerNotCaller | DryRunHttp(status: int) | DryRunStatusMissing
    | StatusUnchanged | IndexHttp(status: int) | PostWriteMismatch

  datatype Outcome = Pending | DryRunOk | Applied | Skipped(why: Why) | FailedRow(why: Why)

  function ManifestSkipReason(row: Row, caller: string): Option<Why> {
    if row.modifier != Some(caller) then Some(ManifestModifierNotCaller)
    else if row.parseTimeout then Some(ParseTimeout)
    else None
  }

  function ChunkSkipReason(chunk: Chunk, source: string, caller: string): Option<Why> {
    if chunk.user.None? then Some(ChunkOwnerMissing)
    else if chunk.sourceKey != Some(source) then Some(ChunkSourceKeyMismatch)
    else if chunk.user != Some(caller) then Some(ChunkOwnerNotCaller)
    else None
  }

  // ------------------------------------------------------------------ one row

  /** One line of the report. */
  datatype TableRow = TableRow(layer: string, key: string, newStatus: Option<string>, docId: Option<string>,
                               ownerBefore: Option<string>, ownerAfter: Option<string>, manifestAfter: Option<string>,
                               outcome: Outcome)

  function NewLine(e: Entry): TableRow { TableRow(e.layer, e.row.key, None, None, None, None, None, Pending) }

  predicate Guarded(e: Entry, caller: string, read: ChunkRead) {
    && ManifestSkipReason(e.row, caller).None?
    && read.Found? && ChunkSkipReason(read.chunk, DeriveSourceKey(e), caller).None?
  }

  /** The line phase 1 makes of what it read and of the dry run's answer. */
  function Assessment(e: Entry, caller: string, read: ChunkRead, posts: seq<Call>): TableRow {
    var line, skip := NewLine(e), ManifestSkipReason(e.row, caller);
    if skip.Some? then line.(outcome := Skipped(skip.value))
    else if read.NotFound? then line.(outcome := Skipped(ChunkNotFound))
    else if read.ReadFailed? then line.(outcome := Skipped(ChunkReadFailed))
    else
      var line := line.(docId := Some(read.docId), ownerBefore := read.chunk.user);
      var skip := ChunkSkipReason(read.chunk, DeriveSourceKey(e), caller);
      if skip.Some? then line.(outcome := Skipped(skip.value))
      else if posts == [] || !posts[0].Posted? then line
      else
        var reply := posts[0].post;
        var line := line.(newStatus := reply.signature);
        if reply.status != 200 then line.(outcome := FailedRow(DryRunHttp(reply.status)))
        else if reply.signature.None? then line.(outcome := Skipped(DryRunStatusMissing))
        else if reply.signature.value == AFFECTED then line.(outcome := Skipped(StatusUnchanged))
        else line.(outcome := DryRunOk)
  }

  /** The calls phase 1 makes for one row: none when the manifest refuses it; otherwise the
      probes, and a dry run of its own file exactly when the owner guards passed. */
  ghost predicate Assessed(name: Naming, caller: string, e: Entry, probes: seq<Call>, posts: seq<Call>,
                           line: TableRow) {
    && (if ManifestSkipReason(e.row, caller).Some? then probes == []
        else ProbesOk(name, DeriveSourceKey(e), e.row.pages, probes))
    && (if Guarded(e, caller, ReadOf(probes))
        then |posts| == 1 && posts[0].Posted? && posts[0].dry && posts[0].file == IndexFileParam(e, caller)
        else posts == [])
    && line == Assessment(e, caller, ReadOf(probes), posts)
  }

  method AssessRow(server: Server, name: Naming, caller: string, e: Entry)
    returns (line: TableRow, read: ChunkRead, ghost probes: seq<Call>, ghost posts: seq<Call>)
    modifies server
    ensures server.log == old(server.log) + probes + posts
    ensures Assessed(name, caller, e, probes, posts, line) &&
            (line.outcome == DryRunOk ==> read == ReadOf(probes) && read.Found?)
  {
    hide DeriveSourceKey, IndexFileParam, ProbesOk;
    probes, posts, read := [], [], NotFound;
    line := NewLine(e);
    var skip := ManifestSkipReason(e.row, caller);
    if skip.Some? { return line.(outcome := Skipped(skip.value)), read, probes, posts; }
    var source := DeriveSourceKey(e);
    read, probes := ReadChunkOwner(server, name, source, e.row.pages);
    if !read.Found? {
      return line.(outcome := Skipped(if read.NotFound? then ChunkNotFound else ChunkReadFailed)), read, probes, posts;
    }
    line := line.(docId := Some(read.docId), ownerBefore := read.chunk.user);
    skip := ChunkSkipReason(read.chunk, source, caller);
    if skip.Some? { return line.(outcome := Skipped(skip.value)), read, probes, posts; }
    var reply := server.PostIndex(IndexFileParam(e, caller), true);
    posts := [Posted(IndexFileParam(e, caller), true, reply)];
    line := line.(newStatus := reply.signature);
    if reply.status != 200 {
      line := line.(outcome := FailedRow(DryRunHttp(reply.status)));
    } else if reply.signature.None? {
      line := line.(outcome := Skipped(DryRunStatusMissing));
    } else if reply.signature.value == AFFECTED {
      line := line.(outcome := Skipped(StatusUnchanged));
    } else {
      line := line.(outcome := DryRunOk);
    }
  }

  function FirstWithKey(entries: seq<Entry>, key: string): Option<Row> {
    if entries == [] then None
    else if entries[0].row.key == key then Some(entries[0].row)
    else FirstWithKey(entries[1..], key)
  }

  /** The re-read chunk is still the caller's same document and shows the prediction. */
  predicate ChunkShows(got: ChunkReply, before: Chunk, caller: string, expected: string) {
    && got.Got? && got.chunk.user == Some(caller) && got.chunk.sourceKey == before.sourceKey
    && got.chunk.hash == before.hash && got.chunk.status == Some(expected)
  }

  predicate RowShows(row: Option<Row>, caller: string, expected: string) {
    row.Some? && row.value.status == Some(expected) && row.value.owner == Some(caller)
  }

  /** These calls are a full verification: the same chunk re-read, the layer re-listed to
      the end, and both show the dry run's prediction under the caller's name. */
  ghost predicate Shows(checks: seq<Call>, e: Entry, caller: string, before: ChunkRead, expected: string)
    requires before.Found?
  {
    && |checks| > 1 && checks[0].Probed? && checks[0].docId == before.docId
    && ChunkShows(checks[0].got, before.chunk, caller, expected)
    && Walk(e.layer, checks[1..])
    && RowShows(FirstWithKey(Keep(Entries(checks[1..]), Live()), e.row.key), caller, expected)
  }

  datatype Verdict = Verified | Missed | ListingBroke

  /** `verify_post_write`: nothing is posted, and it passes if and only if both stores show
      the prediction. */
  method VerifyPostWrite(server: Server, caller: string, e: Entry, before: ChunkRead, line: TableRow, expected: string)
    returns (line': TableRow, v: Verdict, ghost checks: seq<Call>)
    requires before.Found?
    modifies server
    ensures server.log == old(server.log) + checks && forall k :: 0 <= k < |checks| ==> !checks[k].Posted?
    ensures v == Verified <==> Shows(checks, e, caller, before, expected)
    ensures line'.outcome == if v == Missed then FailedRow(PostWriteMismatch) else line.outcome
    ensures line'.(outcome := line.outcome, ownerAfter := line.ownerAfter, manifestAfter := line.manifestAfter) == line
  {
    hide FirstWithKey, Keep, Entries, Walk, RowShows;
    line' := line;
    var after := server.Probe(before.docId);
    checks := [Probed(before.docId, after)];
    if after.Missing? { return line'.(outcome := FailedRow(PostWriteMismatch)), Missed, checks; }
    line' := line'.(ownerAfter := after.chunk.user);
    if !ChunkShows(after, before.chunk, caller, expected) {
      return line'.(outcome := FailedRow(PostWriteMismatch)), Missed, checks;
    }
    var rows, calls := ListLayer(server, e.layer);
    checks := checks + calls;
    assert checks[1..] == calls && forall k :: 1 <= k < |checks| ==> checks[k] == calls[k - 1];
    if rows.None? {
      BrokenIsNoWalk(e.layer, calls);
      return line', ListingBroke, checks;
    }
    WalkIsSomething(e.layer, calls);
    var listed := FirstWithKey(rows.value, e.row.key);
    if listed.Some? { line' := line'.(manifestAfter := listed.value.status); }
    if RowShows(listed, caller, expected) {
      v := Verified;
    } else {
      line', v := line'.(outcome := FailedRow(PostWriteMismatch)), Missed;
    }
  }

  lemma BrokenIsNoWalk(layer: string, calls: seq<Call>)
    requires calls != [] && calls[|calls| - 1].Listed? && calls[|calls| - 1].listing.HttpError?
    ensures !Walk(layer, calls)
  {
    assert !PageOk(layer, calls[..|calls| - 1], calls[|calls| - 1], false);
  }

  lemma WalkIsSomething(layer: string, calls: seq<Call>)
    requires Walk(layer, calls)
    ensures calls != []
  {
  }

  /** The outcome of one real re-index. `stopped`: its exception ends the run. */
  ghost predicate Written(e: Entry, caller: string, before: ChunkRead, first: TableRow, reply: PostReply,
                          checks: seq<Call>, stopped: bool, line: TableRow)
    requires before.Found? && first.newStatus.Some?
  {
    && (forall k :: 0 <= k < |checks| ==> !checks[k].Posted?)
    && if reply.status != 200 then
         checks == [] && !stopped && line == first.(outcome := FailedRow(IndexHttp(reply.status)))
       else if reply.signature != first.newStatus then
         && checks == [] && stopped
         && line == first.(newStatus := reply.signature, outcome := FailedRow(PostWriteMismatch))
       else
         && (!stopped <==> Shows(checks, e, caller, before, first.newStatus.value))
         && (line.outcome == Applied <==> !stopped)
         && (stopped ==> line.outcome == FailedRow(PostWriteMismatch) || line.outcome == first.outcome)
         && line == first.(outcome := line.outcome, ownerAfter := line.ownerAfter, manifestAfter := line.manifestAfter)
  }

  /** One real re-index and its verification. */
  method WriteRow(server: Server, caller: string, e: Entry, before: ChunkRead, first: TableRow)
    returns (line: TableRow, stopped: bool, ghost reply: PostReply, ghost checks: seq<Call>)
    requires before.Found? && first.outcome == DryRunOk && first.newStatus.Some?
    modifies server
    ensures server.log == old(server.log) + [Posted(IndexFileParam(e, caller), false, reply)] + checks
    ensures Written(e, caller, before, first, reply, checks, stopped, line)
  {
    hide IndexFileParam, Shows;
    var answer := server.PostIndex(IndexFileParam(e, caller), false);
    reply, checks := answer, [];
    if answer.status != 200 {
      return first.(outcome := FailedRow(IndexHttp(answer.status))), false, reply, checks;
    }
    if answer.signature != first.newStatus {
      return first.(newStatus := answer.signature, outcome := FailedRow(PostWriteMismatch)), true, reply, checks;
    }
    var v: Verdict;
    line, v, checks := VerifyPostWrite(server, caller, e, before, first, first.newStatus.value);
    stopped := v != Verified;
    if !stopped { line := line.(outcome := Applied); }
  }

  // ------------------------------------------------------------------ the run

  /** A row's real re-index: where in the log, what it answered, the checks after it. */
  datatype Write = Write(at: nat, reply: PostReply, checks: seq<Call>, stopped: bool)

  /** What the run did for one candidate: its probes and dry run at `at`, the line they
      made, and its write, if any. */
  datatype Trail = Trail(at: nat, probes: seq<Call>, posts: seq<Call>, first: TableRow, wrote: Option<Write>)

  ghost predicate Placed(log: seq<Call>, at: nat, part: seq<Call>) {
    at + |part| <= |log| && log[at..at + |part|] == part
  }

  /** A candidate: listed earlier, affected, not deleted and the caller's. */
  ghost predicate Listing(past: seq<Call>, caller: string, e: Entry) {
    e in Entries(past) && !e.row.deleted && e.row.status == Some("check_failed") && e.row.owner == Some(caller)
  }

  ghost predicate WriteOk(caller: string, log: seq<Call>, e: Entry, line: TableRow, t: Trail, w: Write) {
    && t.first.outcome == DryRunOk && t.first.newStatus.Some? && ReadOf(t.probes).Found?
    && t.at + |t.probes| + |t.posts| <= w.at
    && Placed(log, w.at, [Posted(IndexFileParam(e, caller), false, w.reply)] + w.checks)
    && Written(e, caller, ReadOf(t.probes), t.first, w.reply, w.checks, w.stopped, line)
  }

  /** The log holds exactly what the trail says was done for this candidate, by the rules of
      phase 1 and of the write; the report line is the outcome. */
  ghost predicate RowOk(name: Naming, caller: string, log: seq<Call>, e: Entry, line: TableRow, t: Trail) {
    && Placed(log, t.at, t.probes + t.posts)
    && Listing(log[..t.at], caller, e)
    && Assessed(name, caller, e, t.probes, t.posts, t.first)
    && (if t.wrote.Some? then WriteOk(caller, log, e, line, t, t.wrote.value) else line == t.first)
  }

  predicate AskedAt(t: Trail, p: nat) { t.posts != [] && p == t.at + |t.probes| }
  predicate WroteAt(t: Trail, p: nat) { t.wrote.Some? && p == t.wrote.value.at }

  /** Every POST in the log since `start` is some candidate's own dry run or write. */
  ghost predicate Owned(log: seq<Call>, start: nat, trails: seq<Trail>) {
    forall p :: start <= p < |log| && log[p].Posted? ==>
      exists i :: 0 <= i < |trails| && (AskedAt(trails[i], p) || WroteAt(trails[i], p))
  }

  /** One candidate after the other: no two share a call. */
  ghost predicate InTurn(trails: seq<Trail>) {
    && (forall i, j :: 0 <= i < j < |trails| ==> trails[i].at + |trails[i].probes| + |trails[i].posts| <= trails[j].at)
    && (forall i, j :: 0 <= i < j < |trails| && trails[i].wrote.Some? && trails[j].wrote.Some? ==>
          trails[i].wrote.value.at + |trails[i].wrote.value.checks| < trails[j].wrote.value.at)
  }

  ghost predicate BookOk(name: Naming, caller: string, log: seq<Call>, start: nat, mine: seq<Entry>,
                         lines: seq<TableRow>, trails: seq<Trail>) {
    && |lines| == |trails| <= |mine|
    && (forall i :: 0 <= i < |lines| ==> RowOk(name, caller, log, mine[i], lines[i], trails[i]))
    && Owned(log, start, trails) && InTurn(trails)
    && (forall i :: 0 <= i < |trails| ==>
        start <= trails[i].at && trails[i].at + |trails[i].probes| + |trails[i].posts| <= |log|)
  }

  lemma PlacedGrows(log: seq<Call>, more: seq<Call>, at: nat, part: seq<Call>)
    requires Placed(log, at, part)
    ensures Placed(log + more, at, part)
  {
    assert (log + more)[at..at + |part|] == log[at..at + |part|];
  }

  lemma JustPlaced(log: seq<Call>, part: seq<Call>)
    ensures Placed(log + part, |log|, part)
  {
  }

  lemma RowGrows(name: Naming, caller: string, log: seq<Call>, more: seq<Call>, e: Entry, line: TableRow, t: Trail)
    requires RowOk(name, caller, log, e, line, t)
    ensures RowOk(name, caller, log + more, e, line, t)
  {
    PlacedGrows(log, more, t.at, t.probes + t.posts);
    assert (log + more)[..t.at] == log[..t.at] by { PlacedFits(log, t.at, t.probes + t.posts); }
    if t.wrote.Some? {
      PlacedGrows(log, more, t.wrote.value.at,
                  [Posted(IndexFileParam(e, caller), false, t.wrote.value.reply)] + t.wrote.value.checks);
    }
    hide Placed, Listing, Assessed, Written, IndexFileParam;
  }

  lemma PlacedFits(log: seq<Call>, at: nat, part: seq<Call>)
    requires Placed(log, at, part)
    ensures at + |part| <= |log|
  {
  }

  /** Phase 1 for one more candidate. */
  lemma OneAssessed(name: Naming, caller: string, log: seq<Call>, start: nat, mine: seq<Entry>, lines: seq<TableRow>,
                    trails: seq<Trail>, probes: seq<Call>, posts: seq<Call>, line: TableRow)
    requires BookOk(name, caller, log, start, mine, lines, trails) && |lines| < |mine| && start <= |log|
    requires Listing(log, caller, mine[|lines|]) && Assessed(name, caller, mine[|lines|], probes, posts, line)
    requires forall i :: 0 <= i < |trails| ==> trails[i].wrote.None?
    ensures BookOk(name, caller, log + probes + posts, start, mine, lines + [line],
                   trails + [Trail(|log|, probes, posts, line, None)])
  {
    hide RowOk, Owned, InTurn, Placed, Listing;
    var t, e, log' := Trail(|log|, probes, posts, line, None), mine[|lines|], log + (probes + posts);
    Associates(log, probes, posts);
    JustPlaced(log, probes + posts);
    assert log'[..|log|] == log;
    assert RowOk(name, caller, log', e, line, t) by { NewRow(name, caller, log', e, line, t); }
    forall i | 0 <= i < |lines| ensures RowOk(name, caller, log', mine[i], lines[i], trails[i]) {
      RowGrows(name, caller, log, probes + posts, mine[i], lines[i], trails[i]);
    }
    OwnedWithOne(name, caller, log, start, trails, t, e);
    InTurnWithOne(trails, t);
  }

  lemma NewRow(name: Naming, caller: string, log: seq<Call>, e: Entry, line: TableRow, t: Trail)
    requires t.wrote.None? && t.first == line && Placed(log, t.at, t.probes + t.posts) && t.at <= |log|
    requires Listing(log[..t.at], caller, e) && Assessed(name, caller, e, t.probes, t.posts, line)
    ensures RowOk(name, caller, log, e, line, t)
  {
  }

  lemma OwnedWithOne(name: Naming, caller: string, log: seq<Call>, start: nat, trails: seq<Trail>, t: Trail, e: Entry)
    requires Owned(log, start, trails) && t.at == |log| && Assessed(name, caller, e, t.probes, t.posts, t.first)
    ensures Owned(log + (t.probes + t.posts), start, trails + [t])
  {
    var log', trails' := log + (t.probes + t.posts), trails + [t];
    AssessedShape(name, caller, e, t.probes, t.posts, t.first);
    hide Assessed;
    forall p | start <= p < |log'| && log'[p].Posted?
      ensures exists i :: 0 <= i < |trails'| && (AskedAt(trails'[i], p) || WroteAt(trails'[i], p))
    {
      if p < |log| {
        assert log'[p] == log[p];
        var i :| 0 <= i < |trails| && (AskedAt(trails[i], p) || WroteAt(trails[i], p));
        assert trails'[i] == trails[i];
      } else {
        assert log'[p] == (t.probes + t.posts)[p - |log|];
        assert trails'[|trails|] == t && AskedAt(t, p);
      }
    }
  }

  lemma AssessedShape(name: Naming, caller: string, e: Entry, probes: seq<Call>, posts: seq<Call>, line: TableRow)
    requires Assessed(name, caller, e, probes, posts, line)
    ensures |posts| <= 1 && forall k :: 0 <= k < |probes| ==> !probes[k].Posted?
  {
    hide Assessment, Guarded, IndexFileParam, DeriveSourceKey;
  }

  lemma InTurnWithOne(trails: seq<Trail>, t: Trail)
    requires InTurn(trails) && t.wrote.None?
    requires forall i :: 0 <= i < |trails| ==> trails[i].at + |trails[i].probes| + |trails[i].posts| <= t.at
    ensures InTurn(trails + [t])
  {
  }

  /** Phase 2 for candidate `n`: one write after all others. */
  lemma OneWritten(name: Naming, caller: string, log: seq<Call>, start: nat, mine: seq<Entry>, lines: seq<TableRow>,
                   trails: seq<Trail>, n: nat, line: TableRow, w: Write)
    requires BookOk(name, caller, log, start, mine, lines, trails) && n < |lines| == |mine| && start <= |log|
    requires trails[n].first.outcome == DryRunOk && trails[n].first.newStatus.Some? && ReadOf(trails[n].probes).Found?
    requires w.at == |log| && Written(mine[n], caller, ReadOf(trails[n].probes), trails[n].first, w.reply, w.checks,
                                      w.stopped, line)
    requires forall i :: n <= i < |trails| ==> trails[i].wrote.None?
    requires forall i :: 0 <= i < n && trails[i].wrote.Some? ==>
             trails[i].wrote.value.at + |trails[i].wrote.value.checks| < |log|
    ensures var log' := log + [Posted(IndexFileParam(mine[n], caller), false, w.reply)] + w.checks;
            BookOk(name, caller, log', start, mine, lines[n := line], trails[n := trails[n].(wrote := Some(w))])
  {
    hide RowOk, Owned, InTurn, Placed, Written;
    var part := [Posted(IndexFileParam(mine[n], caller), false, w.reply)] + w.checks;
    var log', t' := log + part, trails[n].(wrote := Some(w));
    Associates(log, [Posted(IndexFileParam(mine[n], caller), false, w.reply)], w.checks);
    JustPlaced(log, part);
    forall i | 0 <= i < |lines| ensures RowOk(name, caller, log', mine[i], lines[n := line][i], trails[n := t'][i]) {
      RowGrows(name, caller, log, part, mine[i], lines[i], trails[i]);
      if i == n { RowWritten(name, caller, log', mine[n], lines[n], line, trails[n], w); }
    }
    OwnedWithWrite(mine[n], caller, log, start, trails, n, line, w);
    InTurnWithWrite(trails, n, w);
  }

  lemma RowWritten(name: Naming, caller: string, log: seq<Call>, e: Entry, old': TableRow, line: TableRow, t: Trail,
                   w: Write)
    requires RowOk(name, caller, log, e, old', t) && t.wrote.None? && t.first.outcome == DryRunOk &&
             t.first.newStatus.Some?
    requires ReadOf(t.probes).Found? && t.at + |t.probes| + |t.posts| <= w.at
    requires Placed(log, w.at, [Posted(IndexFileParam(e, caller), false, w.reply)] + w.checks)
    requires Written(e, caller, ReadOf(t.probes), t.first, w.reply, w.checks, w.stopped, line)
    ensures RowOk(name, caller, log, e, line, t.(wrote := Some(w)))
  {
    hide Placed, Listing, Assessed, Written, IndexFileParam;
  }

  lemma OwnedWithWrite(e: Entry, caller: string, log: seq<Call>, start: nat, trails: seq<Trail>, n: nat,
                       line: TableRow, w: Write)
    requires Owned(log, start, trails) && n < |trails| && trails[n].wrote.None? && w.at == |log|
    requires trails[n].first.newStatus.Some? && ReadOf(trails[n].probes).Found?
    requires Written(e, caller, ReadOf(trails[n].probes), trails[n].first, w.reply, w.checks, w.stopped, line)
    ensures Owned(log + ([Posted(IndexFileParam(e, caller), false, w.reply)] + w.checks), start,
                  trails[n := trails[n].(wrote := Some(w))])
  {
    var part, t' := [Posted(IndexFileParam(e, caller), false, w.reply)] + w.checks, trails[n].(wrote := Some(w));
    var log', trails' := log + part, trails[n := t'];
    assert forall k :: 0 <= k < |w.checks| ==> !w.checks[k].Posted?;
    hide Written, IndexFileParam;
    forall p | start <= p < |log'| && log'[p].Posted?
      ensures exists i :: 0 <= i < |trails'| && (AskedAt(trails'[i], p) || WroteAt(trails'[i], p))
    {
      if p < |log| {
        assert log'[p] == log[p];
        var i :| 0 <= i < |trails| && (AskedAt(trails[i], p) || WroteAt(trails[i], p));
        assert AskedAt(trails'[i], p) || WroteAt(trails'[i], p);
      } else {
        assert log'[p] == part[p - |log|];
        assert p == |log| && WroteAt(trails'[n], p);
      }
    }
  }

  lemma InTurnWithWrite(trails: seq<Trail>, n: nat, w: Write)
    requires InTurn(trails) && n < |trails| && forall i :: n <= i < |trails| ==> trails[i].wrote.None?
    requires forall i :: 0 <= i < n && trails[i].wrote.Some? ==>
             trails[i].wrote.value.at + |trails[i].wrote.value.checks| < w.at
    ensures InTurn(trails[n := trails[n].(wrote := Some(w))])
  {
  }

  /** The layers were walked one after the other, each to its end. */
  ghost predicate Surveyed(layers: seq<string>, calls: seq<Call>)
    decreases |layers|
  {
    if layers == [] then calls == []
    else
      var m := |layers| - 1;
      exists n: nat :: n <= |calls| && Surveyed(layers[..m], calls[..n]) && Walk(layers[m], calls[n..])
  }

  /** `list_check_failed` over the layers. */
  method Discover(server: Server, layers: seq<string>) returns (found: Option<seq<Entry>>, ghost calls: seq<Call>)
    modifies server
    ensures server.log == old(server.log) + calls && forall k :: 0 <= k < |calls| ==> calls[k].Listed?
    ensures found.Some? ==> Surveyed(layers, calls) && found.value == Keep(Keep(Entries(calls), Live()), Affected())
  {
    hide Keep, Entries, Walk;
    var all: seq<Entry> := [];
    calls := [];
    NothingFound();
    for n := 0 to |layers|
      invariant server.log == old(server.log) + calls && forall k :: 0 <= k < |calls| ==> calls[k].Listed?
      invariant Surveyed(layers[..n], calls) && all == Keep(Keep(Entries(calls), Live()), Affected())
    {
      var rows, pages := ListLayer(server, layers[n]);
      ghost var before := calls;
      calls := calls + pages;
      if rows.None? { return None, calls; }
      OneMoreLayer(layers, n, before, pages);
      all := all + Keep(rows.value, Affected());
    }
    assert layers[..|layers|] == layers;
    found := Some(all);
  }

  lemma NothingFound()
    ensures Keep(Keep(Entries([]), Live()), Affected()) == []
  {
  }

  lemma OneMoreLayer(layers: seq<string>, n: nat, before: seq<Call>, pages: seq<Call>)
    requires n < |layers| && Surveyed(layers[..n], before) && Walk(layers[n], pages)
    ensures Surveyed(layers[..n + 1], before + pages)
    ensures Keep(Keep(Entries(before + pages), Live()), Affected()) ==
            Keep(Keep(Entries(before), Live()), Affected()) + Keep(Keep(Entries(pages), Live()), Affected())
  {
    hide Keep, Entries, Walk;
    EntriesConcat(before, pages);
    KeepConcat(Entries(before), Entries(pages), Live());
    KeepConcat(Keep(Entries(before), Live()), Keep(Entries(pages), Live()), Affected());
    assert layers[..n + 1][..n] == layers[..n] && (before + pages)[..|before|] == before &&
           (before + pages)[|before|..] == pages;
  }

  function OwnedBy(caller: string): Entry -> bool { (e: Entry) => e.row.owner == Some(caller) }
  function OthersThan(caller: string): Entry -> bool { (e: Entry) => e.row.owner != Some(caller) }

  /** Every affected row the listing found lands in exactly one of the two report lists. */
  lemma ListsPartition(found: seq<Entry>, caller: string)
    ensures multiset(Keep(found, OwnedBy(caller))) + multiset(Keep(found, OthersThan(caller))) == multiset(found)
    ensures forall e :: e in found ==> (e in Keep(found, OwnedBy(caller)) <==> e !in Keep(found, OthersThan(caller)))
  {
    KeepSplits(found, OwnedBy(caller), OthersThan(caller));
    KeepMembers(found, OwnedBy(caller));
    KeepMembers(found, OthersThan(caller));
  }

  lemma FoundAreListed(log: seq<Call>, calls: seq<Call>, caller: string)
    ensures forall e :: e in Keep(Keep(Keep(Entries(calls), Live()), Affected()), OwnedBy(caller)) ==>
            Listing(log + calls, caller, e)
  {
    EntriesConcat(log, calls);
    KeepMembers(Entries(calls), Live());
    KeepMembers(Keep(Entries(calls), Live()), Affected());
    KeepMembers(Keep(Keep(Entries(calls), Live()), Affected()), OwnedBy(caller));
    hide Keep, Entries;
  }

  lemma ListingGrows(past: seq<Call>, more: seq<Call>, caller: string)
    ensures forall e :: Listing(past, caller, e) ==> Listing(past + more, caller, e)
  {
    EntriesConcat(past, more);
    hide Entries;
  }

  datatype Report = Report(lines: seq<TableRow>, others: seq<Entry>)

  datatype End = Finished | ListingFailed | Stopped

  /** Phase 1 over all candidates. */
  method AssessAll(server: Server, name: Naming, caller: string, mine: seq<Entry>, ghost start: nat)
    returns (lines: seq<TableRow>, found: seq<ChunkRead>, ghost trails: seq<Trail>)
    requires start <= |server.log| && forall e :: e in mine ==> Listing(server.log, caller, e)
    requires forall p :: start <= p < |server.log| ==> !server.log[p].Posted?
    modifies server
    ensures old(server.log) <= server.log && |lines| == |found| == |mine|
    ensures BookOk(name, caller, server.log, start, mine, lines, trails)
    ensures forall i :: 0 <= i < |trails| ==> trails[i].wrote.None? && trails[i].first == lines[i]
    ensures forall i :: 0 <= i < |trails| && lines[i].outcome == DryRunOk ==>
              found[i].Found? && found[i] == ReadOf(trails[i].probes) && lines[i].newStatus.Some?
  {
    hide BookOk, Listing, Assessed;
    lines, found, trails := [], [], [];
    ghost var before := server.log;
    EmptyBook(name, caller, before, start, mine);
    for n := 0 to |mine|
      invariant before <= server.log && |lines| == |found| == |trails| == n
      invariant forall e :: e in mine ==> Listing(server.log, caller, e)
      invariant BookOk(name, caller, server.log, start, mine, lines, trails)
      invariant forall i :: 0 <= i < n ==> trails[i].wrote.None? && trails[i].first == lines[i]
      invariant forall i :: 0 <= i < n && lines[i].outcome == DryRunOk ==>
                  found[i].Found? && found[i] == ReadOf(trails[i].probes) && lines[i].newStatus.Some?
    {
      ghost var log := server.log;
      var line, read, probes, posts := AssessRow(server, name, caller, mine[n]);
      OneAssessed(name, caller, log, start, mine, lines, trails, probes, posts, line);
      Associates(log, probes, posts);
      ListingGrows(log, probes + posts, caller);
      OkHasStatus(name, caller, mine[n], probes, posts, line);
      lines, found, trails := lines + [line], found + [read], trails + [Trail(|log|, probes, posts, line, None)];
    }
  }

  lemma EmptyBook(name: Naming, caller: string, log: seq<Call>, start: nat, mine: seq<Entry>)
    requires forall p :: start <= p < |log| ==> !log[p].Posted?
    ensures BookOk(name, caller, log, start, mine, [], [])
  {
  }

  lemma OkHasStatus(name: Naming, caller: string, e: Entry, probes: seq<Call>, posts: seq<Call>, line: TableRow)
    requires Assessed(name, caller, e, probes, posts, line)
    ensures line.outcome == DryRunOk <==>
            Guarded(e, caller, ReadOf(probes)) && posts[0].post.status == 200 &&
            posts[0].post.signature.Some? && posts[0].post.signature.value != AFFECTED
    ensures line.outcome == DryRunOk ==> line.newStatus == posts[0].post.signature
    ensures line.outcome != Applied && line.outcome != FailedRow(PostWriteMismatch)
  {
    hide ProbesOk, DeriveSourceKey, IndexFileParam;
  }

  /** No candidate but the last one written ended the run. */
  ghost predicate NoneStopped(trails: seq<Trail>) {
    forall i :: 0 <= i < |trails| && trails[i].wrote.Some? ==> !trails[i].wrote.value.stopped
  }

  /** The run was ended by this candidate's write, after which nothing was posted. */
  ghost predicate StoppedBy(log: seq<Call>, trails: seq<Trail>, n: nat) {
    && n < |trails| && trails[n].wrote.Some? && trails[n].wrote.value.stopped
    && (forall i :: 0 <= i < |trails| && i != n && trails[i].wrote.Some? ==> !trails[i].wrote.value.stopped)
    && forall p :: trails[n].wrote.value.at < p < |log| ==> !log[p].Posted?
  }

  /** Phase 2: one real re-index at a time; the first failed check ends the run. */
  method ApplyAll(server: Server, name: Naming, caller: string, mine: seq<Entry>, firsts: seq<TableRow>,
                  found: seq<ChunkRead>,
                  ghost start: nat, ghost assessed: seq<Trail>)
    returns (lines: seq<TableRow>, stopped: bool, ghost trails: seq<Trail>)
    requires start <= |server.log| && |firsts| == |found| == |mine|
    requires BookOk(name, caller, server.log, start, mine, firsts, assessed)
    requires forall i :: 0 <= i < |assessed| ==> assessed[i].wrote.None? && assessed[i].first == firsts[i]
    requires forall i :: 0 <= i < |assessed| && firsts[i].outcome == DryRunOk ==>
               found[i].Found? && found[i] == ReadOf(assessed[i].probes) && firsts[i].newStatus.Some?
    modifies server
    ensures old(server.log) <= server.log && |lines| == |mine|
    ensures BookOk(name, caller, server.log, start, mine, lines, trails)
    ensures !stopped ==> NoneStopped(trails)
    ensures !stopped ==>
              forall i :: 0 <= i < |trails| ==> (trails[i].wrote.Some? <==> trails[i].first.outcome == DryRunOk)
    ensures stopped ==> exists n :: StoppedBy(server.log, trails, n)
  {
    hide BookOk, Written;
    lines, trails := firsts, assessed;
    assert |trails| == |mine| by { BookSizes(name, caller, server.log, start, mine, lines, trails); }
    for n := 0 to |mine|
      invariant old(server.log) <= server.log && |lines| == |trails| == |mine|
      invariant BookOk(name, caller, server.log, start, mine, lines, trails)
      invariant NoneStopped(trails)
      invariant forall i :: 0 <= i < |trails| ==> trails[i].first == firsts[i] && trails[i].probes == assessed[i].probes
      invariant forall i :: n <= i < |trails| ==> trails[i].wrote.None?
      invariant forall i :: 0 <= i < n ==> (trails[i].wrote.Some? <==> firsts[i].outcome == DryRunOk)
      invariant forall i :: 0 <= i < n && trails[i].wrote.Some? ==>
                  trails[i].wrote.value.at + |trails[i].wrote.value.checks| < |server.log|
    {
      if firsts[n].outcome == DryRunOk {
        ghost var log := server.log;
        var line, stop, reply, checks := WriteRow(server, caller, mine[n], found[n], firsts[n]);
        ghost var w := Write(|log|, reply, checks, stop);
        OneWritten(name, caller, log, start, mine, lines, trails, n, line, w);
        lines, trails := lines[n := line], trails[n := trails[n].(wrote := Some(w))];
        if stop {
          NothingPostedAfter(mine[n], caller, log, found[n], firsts[n], w, line);
          assert StoppedBy(server.log, trails, n);
          return lines, true, trails;
        }
      }
    }
    stopped := false;
  }

  lemma BookSizes(name: Naming, caller: string, log: seq<Call>, start: nat, mine: seq<Entry>, lines: seq<TableRow>,
                  trails: seq<Trail>)
    requires BookOk(name, caller, log, start, mine, lines, trails)
    ensures |lines| == |trails|
  {
  }

  lemma NothingPostedAfter(e: Entry, caller: string, log: seq<Call>, read: ChunkRead, first: TableRow, w: Write,
                           line: TableRow)
    requires read.Found? && first.newStatus.Some? && Written(e, caller, read, first, w.reply, w.checks, w.stopped, line)
    ensures var log' := log + [Posted(IndexFileParam(e, caller), false, w.reply)] + w.checks;
            forall p :: |log| < p < |log'| ==> !log'[p].Posted?
  {
    hide IndexFileParam, Shows;
    var log' := log + [Posted(IndexFileParam(e, caller), false, w.reply)] + w.checks;
    assert forall p :: |log| < p < |log'| ==> log'[p] == w.checks[p - |log| - 1];
  }

  /** `run_backfill`, for every server. The listing walks the layers to their end; every
      affected row of another owner is reported and never touched; and BookOk holds of the
      server's own log: each POST in it is one candidate's dry run or write, made under the
      rules of AssessRow and WriteRow, with the report line to match. A dry run writes
      nothing; an applied run that is not stopped writes exactly the candidates whose dry
      run allowed it; a stopped one has posted nothing after the write that stopped it. */
  method RunBackfill(server: Server, name: Naming, caller: string, layers: seq<string>, apply: bool)
    returns (report: Report, end: End, ghost listing: seq<Call>, ghost trails: seq<Trail>)
    modifies server
    ensures end == ListingFailed ==> report == Report([], []) && server.log == old(server.log) + listing
    ensures old(server.log) + listing <= server.log && forall k :: 0 <= k < |listing| ==> listing[k].Listed?
    ensures end != ListingFailed ==>
              var found := Keep(Keep(Entries(listing), Live()), Affected());
              var mine := Keep(found, OwnedBy(caller));
              && Surveyed(layers, listing) && report.others == Keep(found, OthersThan(caller))
              && |report.lines| == |mine|
              && BookOk(name, caller, server.log, old(|server.log|), mine, report.lines, trails)
    ensures end == Finished ==> NoneStopped(trails)
    ensures end == Finished ==>
              forall i :: 0 <= i < |trails| ==>
                  (trails[i].wrote.Some? <==> apply && trails[i].first.outcome == DryRunOk)
    ensures end == Stopped ==> apply && exists n :: StoppedBy(server.log, trails, n)
  {
    hide BookOk, Keep, Entries, Surveyed, Listing;
    ghost var before := server.log;
    trails := [];
    var found: Option<seq<Entry>>;
    found, listing := Discover(server, layers);
    if found.None? { return Report([], []), ListingFailed, listing, trails; }
    var mine, others := Keep(found.value, OwnedBy(caller)), Keep(found.value, OthersThan(caller));
    FoundAreListed(before, listing, caller);
    assert forall p :: |before| <= p < |server.log| ==> server.log[p] == listing[p - |before|];
    var lines, chunks;
    lines, chunks, trails := AssessAll(server, name, caller, mine, |before|);
    BookSizes(name, caller, server.log, |before|, mine, lines, trails);
    end := Finished;
    if apply {
      var stopped;
      lines, stopped, trails := ApplyAll(server, name, caller, mine, lines, chunks, |before|, trails);
      if stopped { end := Stopped; }
    }
    report := Report(lines, others);
  }

  // ------------------------------------------------- what a lawful log guarantees

  /** The row's own source: its key without the layer's prefix. */
  ghost predicate OwnSource(e: Entry, source: string) {
    if e.layer + "/" <= e.row.key then e.row.key == e.layer + "/" + source else e.row.key == source
  }

  /** A chunk that some probe of the log has read: named after one of the row's own pages,
      the caller's, and of the row's own source. */
  ghost predicate OwnChunkRead(name: Naming, caller: string, past: seq<Call>, e: Entry) {
    exists page, source, chunk ::
      && Probed(name(source, page), Got(chunk)) in past
      && 1 <= page && e.row.pages.Some? && page <= e.row.pages.value
      && OwnSource(e, source)
      && chunk.user == Some(caller) && chunk.sourceKey == Some(source)
  }

  /** The name a row's object is indexed under: a key that already starts with the caller's
      or the layer's prefix; otherwise the key under both for a private row, and under the
      layer for the others. */
  ghost predicate OwnFile(caller: string, e: Entry, file: string) {
    var key, prefixed := e.row.key, caller + "/" <= e.row.key || e.layer + "/" <= e.row.key;
    && (prefixed ==> file == key)
    && (!prefixed && e.row.isPrivate ==> file == caller + "/" + e.layer + "/" + key)
    && (!prefixed && !e.row.isPrivate ==> file == e.layer + "/" + key)
  }

  /** The evidence in the log that a row may be re-indexed: it was listed as affected under
      the caller's name, it was last modified by the caller, its own chunk was read, and a
      dry run of its own file answered 200 with a changed status. */
  ghost predicate Cleared(name: Naming, caller: string, past: seq<Call>, e: Entry) {
    && Listing(past, caller, e) && e.row.modifier == Some(caller) && !e.row.parseTimeout
    && OwnChunkRead(name, caller, past, e)
    && (exists file, status | OwnFile(caller, e, file) && status != "check_failed" ::
          Posted(file, true, PostReply(200, Some(status))) in past)
  }

  lemma OwnFileIs(caller: string, e: Entry)
    ensures OwnFile(caller, e, IndexFileParam(e, caller))
  {
  }

  lemma SourceIs(e: Entry)
    ensures OwnSource(e, DeriveSourceKey(e)) && forall source :: OwnSource(e, source) ==> source == DeriveSourceKey(e)
  {
  }

  /** Each real re-index is for a cleared row. */
  lemma WriteIsCleared(name: Naming, caller: string, log: seq<Call>, e: Entry, line: TableRow, t: Trail)
    requires RowOk(name, caller, log, e, line, t) && t.wrote.Some?
    ensures t.wrote.value.at < |log|
    ensures log[t.wrote.value.at] == Posted(IndexFileParam(e, caller), false, t.wrote.value.reply)
    ensures Cleared(name, caller, log[..t.wrote.value.at], e)
  {
    hide Assessed, Written, IndexFileParam, DeriveSourceKey, Listing, Placed, ReadOf;
    var w, source := t.wrote.value, DeriveSourceKey(e);
    FirstOfPart(log, w.at, [Posted(IndexFileParam(e, caller), false, w.reply)] + w.checks);
    OkHasStatus(name, caller, e, t.probes, t.posts, t.first);
    assert t.posts != [] by { OkWasAsked(name, caller, e, t.probes, t.posts, t.first); }
    AskedFile(name, caller, e, t.probes, t.posts, t.first);
    LastProbe(name, caller, e, t.probes, t.posts, t.first);
    var d, n := t.posts[0], |t.probes| - 1;
    InPart(log, t.at, t.probes + t.posts, |t.probes|, w.at);
    InPart(log, t.at, t.probes + t.posts, n, w.at);
    ListingStays(log, t.at, w.at, caller, e);
    var past, chunk := log[..w.at], ReadOf(t.probes).chunk;
    assert Probed(name(source, n + 1), Got(chunk)) in past;
    assert Posted(IndexFileParam(e, caller), true, PostReply(200, Some(d.post.signature.value))) in past;
    SourceIs(e);
    OwnFileIs(caller, e);
    hide OwnFile;
    assert OwnChunkRead(name, caller, past, e);
  }

  lemma FirstOfPart(log: seq<Call>, at: nat, part: seq<Call>)
    requires Placed(log, at, part) && part != []
    ensures at < |log| && log[at] == part[0]
  {
    assert log[at..at + |part|][0] == log[at];
  }

  lemma ListingStays(log: seq<Call>, i: nat, j: nat, caller: string, e: Entry)
    requires i <= j <= |log| && Listing(log[..i], caller, e)
    ensures Listing(log[..j], caller, e)
  {
    hide Listing;
    ListingGrows(log[..i], log[i..j], caller);
    assert log[..j] == log[..i] + log[i..j];
  }

  /** The guarantee on the server's own log, in terms of keys and prefixes: every POST of the
      run, dry or real, is for a candidate that was listed, that the caller was the last to
      modify and whose own chunk the run had read by then, and it names that candidate's own
      object. Before a real one the log also holds its dry run. */
  lemma EveryWriteIsCleared(name: Naming, caller: string, log: seq<Call>, start: nat, mine: seq<Entry>,
                            lines: seq<TableRow>, trails: seq<Trail>, p: nat) returns (i: nat)
    requires BookOk(name, caller, log, start, mine, lines, trails)
    requires start <= p < |log| && log[p].Posted?
    ensures i < |mine|
    ensures var e, key := mine[i], mine[i].row.key;
            var prefixed := caller + "/" <= key || e.layer + "/" <= key;
            log[p].file == if prefixed then key
                           else if e.row.isPrivate then caller + "/" + e.layer + "/" + key
                           else e.layer + "/" + key
    ensures var e := mine[i];
            && Listing(log[..p], caller, e) && e.row.modifier == Some(caller) && !e.row.parseTimeout
            && OwnChunkRead(name, caller, log[..p], e)
    ensures !log[p].dry ==> Cleared(name, caller, log[..p], mine[i])
  {
    hide RowOk, BookOk, Cleared, IndexFileParam, OwnChunkRead, Listing, OwnFile;
    i := WhoPosted(name, caller, log, start, mine, lines, trails, p);
    EveryDryRunIsGuarded(name, caller, log, mine[i], lines[i], trails[i]);
    if trails[i].wrote.Some? { WriteIsCleared(name, caller, log, mine[i], lines[i], trails[i]); }
    FileInPrefixes(caller, mine[i]);
    if log[p].dry {
      AskIsGuarded(name, caller, log, mine[i], lines[i], trails[i]);
    } else {
      ClearedMeans(name, caller, log[..p], mine[i]);
    }
  }

  lemma WhoPosted(name: Naming, caller: string, log: seq<Call>, start: nat, mine: seq<Entry>,
                  lines: seq<TableRow>, trails: seq<Trail>, p: nat) returns (i: nat)
    requires BookOk(name, caller, log, start, mine, lines, trails)
    requires start <= p < |log| && log[p].Posted?
    ensures i < |trails| && |trails| == |lines| <= |mine| && (AskedAt(trails[i], p) || WroteAt(trails[i], p))
    ensures RowOk(name, caller, log, mine[i], lines[i], trails[i])
  {
    hide RowOk, InTurn;
    i :| 0 <= i < |trails| && (AskedAt(trails[i], p) || WroteAt(trails[i], p));
  }

  lemma ClearedMeans(name: Naming, caller: string, past: seq<Call>, e: Entry)
    requires Cleared(name, caller, past, e)
    ensures && Listing(past, caller, e) && e.row.modifier == Some(caller) && !e.row.parseTimeout
            && OwnChunkRead(name, caller, past, e)
  {
  }

  lemma FileInPrefixes(caller: string, e: Entry)
    ensures var key, prefixed := e.row.key, caller + "/" <= e.row.key || e.layer + "/" <= e.row.key;
            IndexFileParam(e, caller) == if prefixed then key
                                         else if e.row.isPrivate then caller + "/" + e.layer + "/" + key
                                         else e.layer + "/" + key
  {
  }

  /** The evidence before a dry run. */
  lemma AskIsGuarded(name: Naming, caller: string, log: seq<Call>, e: Entry, line: TableRow, t: Trail)
    requires RowOk(name, caller, log, e, line, t) && t.posts != []
    ensures var p := t.at + |t.probes|;
            && p < |log| && Listing(log[..p], caller, e) && e.row.modifier == Some(caller) && !e.row.parseTimeout
            && OwnChunkRead(name, caller, log[..p], e) && t.posts[0].Posted?
            && t.posts[0].file == IndexFileParam(e, caller)
  {
    hide Assessed, Written, IndexFileParam, DeriveSourceKey, Listing, Placed, ReadOf, OwnChunkRead;
    var p, n := t.at + |t.probes|, |t.probes| - 1;
    AskedFile(name, caller, e, t.probes, t.posts, t.first);
    LastProbe(name, caller, e, t.probes, t.posts, t.first);
    PlacedFits(log, t.at, t.probes + t.posts);
    FirstPart(log, t.at, t.probes, t.posts);
    InPart(log, t.at, t.probes, n, p);
    ListingStays(log, t.at, p, caller, e);
    OwnRead(name, caller, log[..p], e, n + 1, ReadOf(t.probes).chunk);
  }

  lemma FirstPart(log: seq<Call>, at: nat, a: seq<Call>, b: seq<Call>)
    requires Placed(log, at, a + b)
    ensures Placed(log, at, a)
  {
    assert log[at..at + |a|] == log[at..at + |a + b|][..|a|];
  }

  lemma OwnRead(name: Naming, caller: string, past: seq<Call>, e: Entry, page: int, chunk: Chunk)
    requires Probed(name(DeriveSourceKey(e), page), Got(chunk)) in past
    requires 1 <= page && e.row.pages.Some? && page <= e.row.pages.value
    requires chunk.user == Some(caller) && chunk.sourceKey == Some(DeriveSourceKey(e))
    ensures OwnChunkRead(name, caller, past, e)
  {
    SourceIs(e);
    hide DeriveSourceKey;
  }

  lemma OkWasAsked(name: Naming, caller: string, e: Entry, probes: seq<Call>, posts: seq<Call>, line: TableRow)
    requires Assessed(name, caller, e, probes, posts, line) && line.outcome == DryRunOk
    ensures posts != []
  {
    hide ProbesOk, DeriveSourceKey, IndexFileParam;
  }

  lemma AskedFile(name: Naming, caller: string, e: Entry, probes: seq<Call>, posts: seq<Call>, line: TableRow)
    requires Assessed(name, caller, e, probes, posts, line) && posts != []
    ensures |posts| == 1 && posts[0] == Posted(IndexFileParam(e, caller), true, posts[0].post)
    ensures e.row.modifier == Some(caller) && !e.row.parseTimeout
  {
    hide IndexFileParam, DeriveSourceKey, ProbesOk;
  }

  lemma LastProbe(name: Naming, caller: string, e: Entry, probes: seq<Call>, posts: seq<Call>, line: TableRow)
    requires Assessed(name, caller, e, probes, posts, line) && posts != []
    ensures var n := |probes| - 1;
            && n >= 0 && ReadOf(probes).Found? && e.row.pages.Some? && n + 1 <= e.row.pages.value
            && probes[n] == Probed(name(DeriveSourceKey(e), n + 1), Got(ReadOf(probes).chunk))
            && ReadOf(probes).chunk.user == Some(caller) && ReadOf(probes).chunk.sourceKey == Some(DeriveSourceKey(e))
  {
    hide IndexFileParam, DeriveSourceKey;
  }

  lemma InPart(log: seq<Call>, at: nat, part: seq<Call>, k: nat, end: nat)
    requires Placed(log, at, part) && k < |part| && at + |part| <= end <= |log|
    ensures part[k] in log[..end]
  {
    assert log[at..at + |part|][k] == log[at + k] == log[..end][at + k];
  }

  /** "applied" means exactly that the write answered 200 with the dry run's prediction and
      that the chunk and the re-listed manifest row then both showed it. */
  lemma AppliedIffShown(name: Naming, caller: string, log: seq<Call>, e: Entry, line: TableRow, t: Trail)
    requires RowOk(name, caller, log, e, line, t)
    ensures line.outcome == Applied <==>
            && t.wrote.Some? && t.wrote.value.reply == PostReply(200, t.first.newStatus)
            && Shows(t.wrote.value.checks, e, caller, ReadOf(t.probes), t.first.newStatus.value)
    ensures line.outcome == FailedRow(PostWriteMismatch) ==> t.wrote.Some? && t.wrote.value.stopped
    ensures t.wrote.Some? ==>
              var reply := t.wrote.value.reply;
              && (reply.status != 200 <==> line.outcome == FailedRow(IndexHttp(reply.status)))
              && (reply.status != 200 ==> !t.wrote.value.stopped && t.wrote.value.checks == [])
              && (reply.status == 200 && reply.signature != t.first.newStatus ==>
                    && t.wrote.value.stopped && t.wrote.value.checks == []
                    && line.outcome == FailedRow(PostWriteMismatch) && line.newStatus == reply.signature)
  {
    OkHasStatus(name, caller, e, t.probes, t.posts, t.first);
    hide Placed, Listing, Assessed, Shows, IndexFileParam;
  }

  /** What such a check has seen: the chunk read before, read again under the same name, is
      still the caller's and of the same source and hash, and has the predicted status; and
      in a complete new walk over the layer the first live row with the row's key is the
      caller's and has it too. */
  lemma ShownMeans(checks: seq<Call>, e: Entry, caller: string, before: ChunkRead, expected: string)
    requires before.Found?
    ensures Shows(checks, e, caller, before, expected) <==>
            && |checks| > 1 && checks[0].Probed? && checks[0].docId == before.docId && checks[0].got.Got?
            && checks[0].got.chunk == Chunk(Some(caller), before.chunk.sourceKey, before.chunk.hash, Some(expected))
            && Walk(e.layer, checks[1..])
            && exists i :: 0 <= i < |Entries(checks[1..])| && FirstLive(Entries(checks[1..]), i, e.row.key)
                        && Entries(checks[1..])[i].row.status == Some(expected)
                        && Entries(checks[1..])[i].row.owner == Some(caller)
  {
    hide Walk, Entries;
    if |checks| > 1 { FirstLiveIs(Entries(checks[1..]), e.row.key); }
  }

  /** The first row with this key that is not deleted. */
  ghost predicate FirstLive(entries: seq<Entry>, i: nat, key: string)
    requires i < |entries|
  {
    && entries[i].row.key == key && !entries[i].row.deleted
    && forall j :: 0 <= j < i ==> entries[j].row.deleted || entries[j].row.key != key
  }

  lemma {:induction false} FirstLiveIs(entries: seq<Entry>, key: string)
    ensures var found := FirstWithKey(Keep(entries, Live()), key);
            && (found.None? ==> forall i :: 0 <= i < |entries| ==> !FirstLive(entries, i, key))
            && (forall i :: 0 <= i < |entries| && FirstLive(entries, i, key) ==> found == Some(entries[i].row))
            && (found.Some? ==> exists i :: 0 <= i < |entries| && FirstLive(entries, i, key))
  {
    if entries != [] {
      FirstLiveIs(entries[1..], key);
      hide Keep;
      KeepCons(entries, Live());
      if entries[0].row.key == key && !entries[0].row.deleted {
        assert FirstLive(entries, 0, key);
      } else {
        forall i | 0 < i < |entries| ensures FirstLive(entries, i, key) <==> FirstLive(entries[1..], i - 1, key) {
          assert entries[i] == entries[1..][i - 1];
          assert forall j :: 1 <= j < i ==> entries[j] == entries[1..][j - 1];
        }
        if FirstWithKey(Keep(entries[1..], Live()), key).Some? {
          var i :| 0 <= i < |entries| - 1 && FirstLive(entries[1..], i, key);
          assert FirstLive(entries, i + 1, key);
        }
      }
    }
  }

  /** A dry run of a row is made only when its owner guards passed. */
  lemma EveryDryRunIsGuarded(name: Naming, caller: string, log: seq<Call>, e: Entry, line: TableRow, t: Trail)
    requires RowOk(name, caller, log, e, line, t)
    ensures t.posts != [] <==> Guarded(e, caller, ReadOf(t.probes))
    ensures t.posts != [] ==> t.at + |t.probes| < |log| && log[t.at + |t.probes|] == t.posts[0]
    ensures ManifestSkipReason(e.row, caller).Some? ==> t.probes + t.posts == []
    ensures t.posts != [] ==> t.posts[0].Posted? && t.posts[0].dry
  {
    var part := t.probes + t.posts;
    assert t.posts != [] ==> log[t.at..t.at + |part|][|t.probes|] == part[|t.probes|];
    hide Guarded, ProbesOk, DeriveSourceKey, IndexFileParam;
  }

  /** The last answer of the probes was a chunk. */
  ghost predicate ReadChunk(probes: seq<Call>, chunk: Chunk) {
    probes != [] && probes[|probes| - 1].Probed? && probes[|probes| - 1].got == Got(chunk)
  }

  ghost predicate ReadMissing(probes: seq<Call>, status: int) {
    probes != [] && probes[|probes| - 1].Probed? && probes[|probes| - 1].got == Missing(status)
  }

  /** Exactly when phase 1 ends a row in each of its ways, from the row and the answers. */
  lemma OutcomeIff(name: Naming, caller: string, e: Entry, source: string, probes: seq<Call>, posts: seq<Call>,
                   line: TableRow)
    requires Assessed(name, caller, e, probes, posts, line) && OwnSource(e, source)
    ensures var row, asked := e.row, e.row.modifier == Some(caller) && !e.row.parseTimeout;
            && line.layer == e.layer && line.key == row.key && (!asked ==> probes + posts == [])
            && (line.outcome == Skipped(ManifestModifierNotCaller) <==> row.modifier != Some(caller))
            && (line.outcome == Skipped(ParseTimeout) <==> row.modifier == Some(caller) && row.parseTimeout)
            && (line.outcome == Skipped(ChunkNotFound) <==> asked && (probes == [] || ReadMissing(probes, 404)))
            && (line.outcome == Skipped(ChunkReadFailed) <==>
                  asked && exists status :: status != 404 && ReadMissing(probes, status))
    ensures forall c :: ReadChunk(probes, c) ==>
              && line.ownerBefore == c.user && line.docId == Some(probes[|probes| - 1].docId)
              && (line.outcome == Skipped(ChunkOwnerMissing) <==> c.user.None?)
              && (line.outcome == Skipped(ChunkSourceKeyMismatch) <==> c.user.Some? && c.sourceKey != Some(source))
              && (line.outcome == Skipped(ChunkOwnerNotCaller) <==>
                    c.user.Some? && c.sourceKey == Some(source) && c.user != Some(caller))
              && (posts != [] <==> c.user == Some(caller) && c.sourceKey == Some(source))
    ensures posts != [] ==>
              && |posts| == 1 && posts[0].Posted? && posts[0].dry && OwnFile(caller, e, posts[0].file)
              && var r := posts[0].post;
                 && line.newStatus == r.signature
                 && line.outcome ==
                    if r.status != 200 then FailedRow(DryRunHttp(r.status))
                    else if r.signature.None? then Skipped(DryRunStatusMissing)
                    else if r.signature == Some("check_failed") then Skipped(StatusUnchanged)
                    else DryRunOk
  {
    SourceIs(e);
    OwnFileIs(caller, e);
    hide DeriveSourceKey, IndexFileParam, OwnSource, OwnFile;
    if probes != [] && probes[|probes| - 1].got.Missing? {
      assert ReadMissing(probes, probes[|probes| - 1].got.status);
    }
  }

  /** Every row the listing showed as affected and not deleted is either the caller's
      candidate or reported as another's; and nothing else is. */
  lemma CandidatesAre(calls: seq<Call>, caller: string)
    ensures var found := Keep(Keep(Entries(calls), Live()), Affected());
            var mine, others := Keep(found, OwnedBy(caller)), Keep(found, OthersThan(caller));
            && (forall e :: e in mine <==> Listing(calls, caller, e))
            && (forall e :: e in others <==>
                  e in Entries(calls) && !e.row.deleted && e.row.status == Some("check_failed")
                  && e.row.owner != Some(caller))
  {
    hide Keep, Entries;
    KeepMembers(Entries(calls), Live());
    KeepMembers(Keep(Entries(calls), Live()), Affected());
    KeepMembers(Keep(Keep(Entries(calls), Live()), Affected()), OwnedBy(caller));
    KeepMembers(Keep(Keep(Entries(calls), Live()), Affected()), OthersThan(caller));
  }
}

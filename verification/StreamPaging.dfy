/** Reading a stream: pages with inclusive tokens (ListStreamValues) and strict successors
    (GetStreamValue) of internal/api/stream_value_handler.go. */
module StreamPaging {
  import opened Common
  import opened EntryIds
  import opened ResourceNames
  import opened StreamRetention

  function Min(a: int, b: int): int {
    if a < b then a else b
  }

  /** XRANGE token + COUNT n. */
  function Page(entries: seq<Entry>, token: EntryId, n: nat): seq<Entry> {
    var k := Older(entries, token);
    entries[k..Min(|entries|, k + n)]
  }

  /** Redis answers COUNT 0 on an existing stream with nil, which the client reports as an
      error. */
  predicate RangeFails(st: State, n: nat) {
    n == 0 && Visible(st) != []
  }

  /** The token a page comes with: its last ID, or 0-0 for an empty page. */
  function NextToken(page: seq<Entry>): EntryId {
    if page == [] then ZERO_ID else page[|page| - 1].id
  }

  /** XREAD with COUNT 1: the first entry strictly after `id`. */
  function Successor(entries: seq<Entry>, id: EntryId): Option<Entry> {
    var k := Older(entries, EntryId(id.ms, id.number + 1));
    if k < |entries| then Some(entries[k]) else None
  }

  // ---------- A walk concurrent with writes, trims and expiry ----------

  /** A client following page tokens from 0-0 and everything it has been given. */
  datatype Walk = Walk(st: State, token: EntryId, returned: set<Entry>)

  datatype Action = Change(event: Event) | ReadPage(size: nat)

  function Act(w: Walk, a: Action): Walk {
    match a
    case Change(e) => w.(st := Step(w.st, e))
    case ReadPage(n) =>
      if RangeFails(w.st, n) then w
      else
      var page := Page(Visible(w.st), w.token, n);
      Walk(w.st, NextToken(page), w.returned + set e | e in page)
  }

  function WalkRun(st: State, actions: seq<Action>): Walk {
    if actions == [] then Walk(st, ZERO_ID, {})
    else Act(WalkRun(st, actions[..|actions| - 1]), actions[|actions| - 1])
  }

  ghost predicate Covered(w: Walk) {
    && Sane(w.st)
    && AtMost(w.token, w.st.stream.lastId)
    && forall e :: e in Visible(w.st) && AtMost(e.id, w.token) ==> e in w.returned
  }

  /** Appended IDs lie above every token handed out so far. */
  lemma AppendedIsAbove(w: Walk, value: Bytes, trim: Trim)
    requires Covered(w) && !Refused(w.st)
    ensures Less(w.token, Append(w.st, value, trim).stream.lastId)
  {
  }

  lemma ChangeCovers(w: Walk, e: Event)
    requires Covered(w)
    ensures Covered(Act(w, Change(e)))
  {
    StepSane(w.st, e);
    if (e.Add? || e.Write?) && !Refused(w.st) {
      AppendedIsAbove(w, e.value, e.trim);
      var base := Base(w.st);
      var kept := base.entries[Cut(base.entries, w.st.now, e.trim)..];
      assert forall x :: x in kept ==> x in Visible(w.st);
    }
  }

  lemma PageTiles(entries: seq<Entry>, token: EntryId, n: nat, e: Entry)
    requires SortedEntries(entries) && e in entries
    requires !Less(e.id, token)
    requires Page(entries, token, n) != [] && AtMost(e.id, NextToken(Page(entries, token, n)))
    ensures e in Page(entries, token, n)
  {
    var k := Older(entries, token);
    var page := Page(entries, token, n);
    var i :| 0 <= i < |entries| && entries[i] == e;
    assert forall j :: 0 <= j < |page| ==> page[j] == entries[k + j];
    assert page[|page| - 1] == entries[k + |page| - 1];
    assert i >= k;
    assert forall j :: k + |page| <= j < |entries| ==> Less(page[|page| - 1].id, entries[j].id);
    assert page[i - k] == e;
  }

  lemma ReadCovers(w: Walk, n: nat)
    requires Covered(w)
    ensures Covered(Act(w, ReadPage(n)))
  {
    var entries := Visible(w.st);
    var page := Page(entries, w.token, n);
    assert SortedEntries(entries);
    if page != [] {
      assert page[|page| - 1] in entries;
      forall e | e in entries && AtMost(e.id, NextToken(page))
        ensures e in Act(w, ReadPage(n)).returned
      {
        if !Less(e.id, w.token) {
          PageTiles(entries, w.token, n, e);
        }
      }
    } else {
      assert AtMost(ZERO_ID, w.st.stream.lastId);
    }
  }

  /** No entry is skipped: in every run interleaving page reads of any sizes with the commands of
      writes, trims and expiry, every entry still readable with an ID at most the current token has been
      returned to the walker. */
  lemma {:induction false} NothingSkipped(st: State, actions: seq<Action>)
    requires Sane(st)
    ensures Covered(WalkRun(st, actions))
  {
    if actions != [] {
      var before := WalkRun(st, actions[..|actions| - 1]);
      NothingSkipped(st, actions[..|actions| - 1]);
      match actions[|actions| - 1] {
        case Change(e) => ChangeCovers(before, e);
        case ReadPage(n) => ReadCovers(before, n);
      }
    }
  }

  // ---------- Walks over a fixed stream ----------

  /** A walk over a fixed stream: the token held, and the pages so far in order, without the
      entry of each later page that the token repeats. */
  datatype Trail = Trail(token: EntryId, collected: seq<Entry>)

  function TurnPage(entries: seq<Entry>, n: nat, t: Trail): Trail {
    var page := Page(entries, t.token, n);
    var repeats := t.collected != [] && page != [] && page[0].id == t.token;
    Trail(NextToken(page), t.collected + if repeats then page[1..] else page)
  }

  /** `k` pages of size `n`, from 0-0. */
  function Follow(entries: seq<Entry>, n: nat, k: nat): Trail {
    Iterate(t => TurnPage(entries, n, t), Trail(ZERO_ID, []), k)
  }

  ghost predicate Proper(entries: seq<Entry>) {
    SortedEntries(entries) && forall e :: e in entries ==> Less(ZERO_ID, e.id)
  }

  lemma OlderAt(entries: seq<Entry>, k: nat)
    requires SortedEntries(entries) && k < |entries|
    ensures Older(entries, entries[k].id) == k
  {
    assert forall j :: 0 <= j < k ==> Less(entries[j].id, entries[k].id);
  }

  lemma PageAt(entries: seq<Entry>, i: nat, n: nat)
    requires SortedEntries(entries) && i < |entries| && n >= 1
    ensures Page(entries, entries[i].id, n) == entries[i..Min(|entries|, i + n)]
  {
    OlderAt(entries, i);
  }

  lemma FirstPage(entries: seq<Entry>, n: nat)
    requires Proper(entries)
    ensures Page(entries, ZERO_ID, n) == entries[..Min(|entries|, n)]
  {
    assert entries != [] ==> entries[0] in entries;
    assert Older(entries, ZERO_ID) == 0;
  }

  /** The entry the walk stands on after `k` pages. */
  function Position(m: nat, n: nat, k: nat): (i: nat)
    requires m >= 1 && n >= 1 && k >= 1
    ensures i < m
  {
    if k == 1 then Min(m - 1, n - 1) else Min(m - 1, Position(m, n, k - 1) + n - 1)
  }

  lemma {:induction false} PositionIs(m: nat, n: nat, k: nat)
    requires m >= 1 && n >= 1 && k >= 1
    ensures Position(m, n, k) == Min(m - 1, k * (n - 1))
  {
    if k > 1 {
      PositionIs(m, n, k - 1);
      assert k * (n - 1) == (k - 1) * (n - 1) + (n - 1);
    }
  }

  /** One page read from entry `i`: where it ends and what it adds. */
  lemma PageFrom(entries: seq<Entry>, i: nat, n: nat)
    requires Proper(entries) && i < |entries| && n >= 1
    ensures var page := Page(entries, entries[i].id, n);
            var j := Min(|entries| - 1, i + n - 1);
            && page != [] && page[0] == entries[i] && page[|page| - 1] == entries[j]
            && entries[..i + 1] + page[1..] == entries[..j + 1]
  {
    PageAt(entries, i, n);
  }

  /** Standing on entry `i`, with all entries up to it collected. */
  function StandingOn(entries: seq<Entry>, i: nat): Trail
    requires i < |entries|
  {
    Trail(entries[i].id, entries[..i + 1])
  }

  lemma FirstStands(entries: seq<Entry>, n: nat)
    requires Proper(entries) && entries != [] && n >= 1
    ensures TurnPage(entries, n, Trail(ZERO_ID, [])) == StandingOn(entries, Min(|entries| - 1, n - 1))
  {
    FirstPage(entries, n);
    var i := Min(|entries| - 1, n - 1);
    assert Min(|entries|, n) == i + 1;
    FirstTurn(entries, n, i);
  }

  lemma FirstTurn(entries: seq<Entry>, n: nat, i: nat)
    requires i < |entries| && Page(entries, ZERO_ID, n) == entries[..i + 1]
    ensures TurnPage(entries, n, Trail(ZERO_ID, [])) == StandingOn(entries, i)
  {
    var page := entries[..i + 1];
    assert NextToken(page) == entries[i].id;
    assert [] + page == page;
  }

  /** Successive pages share exactly the token's entry, so a page moves n - 1 entries on. */
  lemma TurnPageMoves(entries: seq<Entry>, n: nat, i: nat)
    requires Proper(entries) && n >= 1 && i < |entries|
    ensures TurnPage(entries, n, StandingOn(entries, i)) ==
            StandingOn(entries, Min(|entries| - 1, i + n - 1))
  {
    PageFrom(entries, i, n);
  }

  /** Where the walk is after `k` pages. */
  function WalkAt(entries: seq<Entry>, n: nat, k: nat): Trail
    requires entries != [] && n >= 1
  {
    if k == 0 then Trail(ZERO_ID, []) else StandingOn(entries, Position(|entries|, n, k))
  }

  lemma WalkStep(entries: seq<Entry>, n: nat, k: nat)
    requires Proper(entries) && entries != [] && n >= 1
    ensures TurnPage(entries, n, WalkAt(entries, n, k)) == WalkAt(entries, n, k + 1)
  {
    if k == 0 {
      FirstStands(entries, n);
    } else {
      TurnPageMoves(entries, n, Position(|entries|, n, k));
    }
  }

  lemma WalkStands(entries: seq<Entry>, n: nat, k: nat)
    requires Proper(entries) && entries != [] && n >= 1
    ensures Follow(entries, n, k) == WalkAt(entries, n, k)
  {
    var f := t => TurnPage(entries, n, t);
    var g := (j: nat) => WalkAt(entries, n, j);
    forall j: nat ensures f(g(j)) == g(j + 1) {
      WalkStep(entries, n, j);
    }
    IterateFollows(f, g, k);
  }

  /** After k pages of size n the walk stands on entry min(m - 1, k * (n - 1)) and has collected
      everything up to it. */
  lemma WalkPosition(entries: seq<Entry>, n: nat, k: nat)
    requires Proper(entries) && entries != [] && n >= 1 && k >= 1
    ensures var i := Min(|entries| - 1, k * (n - 1));
            0 <= i < |entries| && Follow(entries, n, k) == StandingOn(entries, i)
  {
    WalkStands(entries, n, k);
    PositionIs(|entries|, n, k);
  }

  /** Paging ends with an exact count: a page size of n >= 2 reaches the last of m entries on
      the first request number k with k * (n - 1) >= m - 1, and a page size of 1 never moves
      past the first entry. */
  lemma LastReachedIff(entries: seq<Entry>, n: nat, k: nat)
    requires Proper(entries) && entries != [] && n >= 1 && k >= 1
    ensures Follow(entries, n, k).token == entries[|entries| - 1].id <==> k * (n - 1) >= |entries| - 1
  {
    WalkPosition(entries, n, k);
    var i := Min(|entries| - 1, k * (n - 1));
    if i < |entries| - 1 {
      assert Less(entries[i].id, entries[|entries| - 1].id);
    }
  }

  function CeilDiv(m: nat, d: nat): (k: nat)
    requires m >= 1 && d >= 1
    ensures k >= 1 && k * d - d < m <= k * d
  {
    var k := (m + d - 1) / d;
    assert m + d - 1 == d * k + (m + d - 1) % d;
    assert d * k == k * d;
    k
  }

  lemma MultiplyMonotone(a: int, b: int, d: nat)
    ensures a <= b ==> a * d <= b * d
    ensures a < b ==> a * d <= b * d - d
  {
    if a < b {
      assert b * d - d == (b - 1) * d;
    }
  }

  /** The number of requests a walk with pages of size n >= 2 needs. */
  lemma RequestsNeeded(entries: seq<Entry>, n: nat, j: nat)
    requires Proper(entries) && |entries| >= 2 && n >= 2 && j >= 1
    ensures Follow(entries, n, j).token == entries[|entries| - 1].id <==> j >= CeilDiv(|entries| - 1, n - 1)
  {
    LastReachedIff(entries, n, j);
    CeilDivIff(|entries| - 1, n - 1, j);
  }

  lemma CeilDivIff(m: nat, d: nat, j: nat)
    requires m >= 1 && d >= 1
    ensures j * d >= m <==> j >= CeilDiv(m, d)
  {
    MultiplyMonotone(CeilDiv(m, d), j, d);
    MultiplyMonotone(j, CeilDiv(m, d), d);
  }

  /** One more GetStreamValue, by the ID of the last entry it returned, from 0-0. */
  function Chase(entries: seq<Entry>, got: seq<Entry>): seq<Entry> {
    match Successor(entries, if got == [] then ZERO_ID else got[|got| - 1].id)
    case None => got
    case Some(e) => got + [e]
  }

  function Chased(entries: seq<Entry>, k: nat): seq<Entry> {
    Iterate(got => Chase(entries, got), [], k)
  }

  lemma SuccessorAt(entries: seq<Entry>, i: nat)
    requires Proper(entries) && i < |entries|
    ensures Successor(entries, entries[i].id) == if i + 1 < |entries| then Some(entries[i + 1]) else None
  {
    var id := entries[i].id;
    var k := Older(entries, EntryId(id.ms, id.number + 1));
    assert forall j :: 0 <= j < i ==> Less(entries[j].id, id);
    assert i + 1 < |entries| ==> Less(id, entries[i + 1].id);
  }

  lemma FirstSuccessor(entries: seq<Entry>)
    requires Proper(entries)
    ensures Successor(entries, ZERO_ID) == if entries != [] then Some(entries[0]) else None
  {
    assert entries != [] ==> entries[0] in entries;
    assert Older(entries, EntryId(0, 1)) == 0;
  }

  lemma ChaseStep(entries: seq<Entry>, k: nat)
    requires Proper(entries)
    ensures Chase(entries, entries[..Min(k, |entries|)]) == entries[..Min(k + 1, |entries|)]
  {
    var i := Min(k, |entries|);
    if i == 0 {
      FirstSuccessor(entries);
    } else {
      SuccessorAt(entries, i - 1);
    }
  }

  lemma ChasedIsPrefix(entries: seq<Entry>, k: nat)
    requires Proper(entries)
    ensures Chased(entries, k) == entries[..Min(k, |entries|)]
  {
    var f := got => Chase(entries, got);
    var g := (j: nat) => entries[..Min(j, |entries|)];
    forall j: nat ensures f(g(j)) == g(j + 1) {
      ChaseStep(entries, j);
    }
    IterateFollows(f, g, k);
  }

  /** The two readers agree: chasing successors enumerates each entry once in order, and so do
      the pages without their boundary duplicates once the walk has reached the end. */
  lemma TwoReadersAgree(entries: seq<Entry>, n: nat, pages: nat, gets: nat)
    requires Proper(entries) && entries != []
    requires n >= 2 && pages >= 1 && pages * (n - 1) >= |entries| - 1 && gets >= |entries|
    ensures Follow(entries, n, pages).collected == entries == Chased(entries, gets)
  {
    WalkPosition(entries, n, pages);
    ChasedIsPrefix(entries, gets);
  }

  // ---------- The handlers ----------

  datatype StreamValueInfo = StreamValueInfo(value: Bytes, entryId: string)

  datatype ListResponse = ListResponse(infos: seq<StreamValueInfo>, pageToken: string)

  ghost predicate AllRepresentable(entries: seq<Entry>) {
    forall i :: 0 <= i < |entries| ==> Representable(entries[i].id) && Less(ZERO_ID, entries[i].id)
  }

  ghost function Infos(page: seq<Entry>): seq<StreamValueInfo>
    requires AllRepresentable(page)
  {
    seq(|page|, i requires 0 <= i < |page| => StreamValueInfo(page[i].value, PrintEntryId(page[i].id)))
  }

  /** What ListStreamValues answers from a page. */
  ghost function ListAnswer(page: seq<Entry>): ListResponse
    requires AllRepresentable(page)
  {
    ListResponse(Infos(page), PrintEntryId(NextToken(page)))
  }

  /** What an answer says about its page: each entry's own value and ID in order, and the last ID
      as token, or 0-0 for an empty page. */
  ghost predicate Tells(r: ListResponse, page: seq<Entry>) {
    && |r.infos| == |page|
    && (forall i :: 0 <= i < |page| ==>
          r.infos[i].value == page[i].value && ParseEntryId(r.infos[i].entryId) == Some(page[i].id))
    && ParseEntryId(r.pageToken) == Some(if page == [] then EntryId(0, 0) else page[|page| - 1].id)
  }

  lemma AnswerTells(page: seq<Entry>)
    requires AllRepresentable(page)
    ensures Tells(ListAnswer(page), page)
  {
    forall i | 0 <= i < |page| ensures ParseEntryId(PrintEntryId(page[i].id)) == Some(page[i].id) {
      ParsePrintEntryId(page[i].id);
    }
    ParsePrintEntryId(NextToken(page));
  }

  /** The loop of ListStreamValues: values and ID texts in order, and the running maximum of
      the IDs, which ends as the last one. */
  method Describe(page: seq<Entry>) returns (r: ListResponse)
    requires AllRepresentable(page) && SortedEntries(page) && page != []
    ensures r == ListAnswer(page) && Tells(r, page)
  {
    var ret := [];
    var texts := [];
    ghost var ids := seq(|page|, i requires 0 <= i < |page| => page[i].id);
    for i := 0 to |page|
      invariant ret == Infos(page)[..i]
      invariant |texts| == i && forall j :: 0 <= j < i ==> texts[j] == PrintEntryId(ids[j])
    {
      ret := ret + [StreamValueInfo(page[i].value, PrintEntryId(page[i].id))];
      texts := texts + [PrintEntryId(page[i].id)];
    }
    var maxEntryId := MaxEntryId(texts, ids);
    ghost var max :| IsMaximum(ids, max) && Representable(max) && maxEntryId == PrintEntryId(max);
    MaximumIsLast(ids, max);
    r := ListResponse(ret, maxEntryId);
    assert r == ListAnswer(page);
    AnswerTells(page);
  }

  lemma PageIncreasing(st: State, token: EntryId, n: nat)
    requires Sane(st)
    ensures var page := Page(Visible(st), token, n);
            SortedEntries(page)
            && (AllRepresentable(st.stream.entries) ==> AllRepresentable(page))
  {
    var entries := Visible(st);
    var k := Older(entries, token);
    var page := Page(entries, token, n);
    assert forall i :: 0 <= i < |page| ==> page[i] == entries[k + i];
  }

  /** ListStreamValues: `subject` is the account the auth token proves, if any, and `readId` how
      Redis reads the text of an ID; it refuses some.  The answer is the page with the values
      and IDs of its entries, and as page token the text of its last ID. */
  method ListStreamValues(store: StreamStore, parent: string, subject: Option<string>,
                          pageToken: string, pageSize: nat, readId: string -> Option<EntryId>)
    returns (r: Result<ListResponse>)
    requires Sane(store.At(parent)) && AllRepresentable(store.At(parent).stream.entries)
    ensures var fields := ParseStreamName(parent);
            if fields.Err? then r == Err(InvalidArgument)
            else if subject != Some(fields.value[0]) then r == Err(PermissionDenied)
            else if readId(pageToken).None? || RangeFails(store.At(parent), pageSize) then r == Err(Internal)
            else var page := Page(Visible(store.At(parent)), readId(pageToken).value, pageSize);
                 AllRepresentable(page) && r == Ok(ListAnswer(page)) && Tells(r.value, page)
  {
    var fields := ParseStreamName(parent);
    if fields.Err? {
      return Err(InvalidArgument);
    }
    if subject != Some(fields.value[0]) {
      return Err(PermissionDenied);
    }
    var token := readId(pageToken);
    if token.None? || RangeFails(store.At(parent), pageSize) {
      return Err(Internal);
    }
    var xMessages := Page(Visible(store.At(parent)), token.value, pageSize);
    PageIncreasing(store.At(parent), token.value, pageSize);
    if |xMessages| == 0 {
      EmptyPageToken();
      AnswerTells([]);
      return Ok(ListResponse([], "0-0"));
    }
    var response := Describe(xMessages);
    return Ok(response);
  }

  lemma EmptyPageToken()
    ensures ListAnswer([]) == ListResponse([], "0-0")
  {
    assert PrintEntryId(ZERO_ID) == "0-0";
  }

  // ---------- A client that follows the answers ----------

  /** A client holds the page token it was last given and what it has got so far. */
  datatype Client = Client(pageToken: string, got: seq<StreamValueInfo>)

  /** The client asks for the next page of a fixed stream.  What it is given first may be what it
      was given last. */
  ghost function Ask(entries: seq<Entry>, n: nat, c: Client): Client
    requires AllRepresentable(entries)
  {
    match ParseEntryId(c.pageToken)
    case None => c
    case Some(token) =>
      PageRepresentable(entries, token, n);
      var r := ListAnswer(Page(entries, token, n));
      var repeats := c.got != [] && r.infos != [] && r.infos[0].entryId == c.pageToken;
      Client(r.pageToken, c.got + if repeats then r.infos[1..] else r.infos)
  }

  lemma PageRepresentable(entries: seq<Entry>, token: EntryId, n: nat)
    requires AllRepresentable(entries)
    ensures AllRepresentable(Page(entries, token, n))
  {
    var k := Older(entries, token);
    var page := Page(entries, token, n);
    assert forall i :: 0 <= i < |page| ==> page[i] == entries[k + i];
  }

  /** `k` requests for pages of size `n`, from 0-0. */
  ghost function AskAll(entries: seq<Entry>, n: nat, k: nat): Client
    requires AllRepresentable(entries)
  {
    if k == 0 then Client("0-0", []) else Ask(entries, n, AskAll(entries, n, k - 1))
  }

  /** The client of a walk over the entries themselves. */
  ghost predicate Mirrors(c: Client, t: Trail) {
    && AllRepresentable(t.collected) && Representable(t.token)
    && c.pageToken == PrintEntryId(t.token) && c.got == Infos(t.collected)
  }

  lemma InfosAppend(a: seq<Entry>, b: seq<Entry>)
    requires AllRepresentable(a) && AllRepresentable(b)
    ensures AllRepresentable(a + b) && Infos(a + b) == Infos(a) + Infos(b)
  {
    assert forall i :: 0 <= i < |a + b| ==> (a + b)[i] == if i < |a| then a[i] else b[i - |a|];
  }

  lemma PrintIsInjective(x: EntryId, y: EntryId)
    requires Representable(x) && Representable(y)
    ensures PrintEntryId(x) == PrintEntryId(y) <==> x == y
  {
    ParsePrintEntryId(x);
    ParsePrintEntryId(y);
  }

  lemma AskMirrors(entries: seq<Entry>, n: nat, c: Client, t: Trail)
    requires AllRepresentable(entries) && Mirrors(c, t)
    ensures Mirrors(Ask(entries, n, c), TurnPage(entries, n, t))
  {
    ParsePrintEntryId(t.token);
    PageRepresentable(entries, t.token, n);
    var page := Page(entries, t.token, n);
    if page == [] {
      InfosAppend(t.collected, page);
    } else {
      PrintIsInjective(page[0].id, t.token);
      assert AllRepresentable(page[1..]);
      assert Infos(page)[1..] == Infos(page[1..]);
      InfosAppend(t.collected, page);
      InfosAppend(t.collected, page[1..]);
    }
  }

  lemma {:induction false} AskAllMirrors(entries: seq<Entry>, n: nat, k: nat)
    requires AllRepresentable(entries)
    ensures Mirrors(AskAll(entries, n, k), Follow(entries, n, k))
  {
    if k > 0 {
      AskAllMirrors(entries, n, k - 1);
      AskMirrors(entries, n, AskAll(entries, n, k - 1), Follow(entries, n, k - 1));
    } else {
      assert PrintEntryId(ZERO_ID) == "0-0";
    }
  }

  /** A client that hands back each page token, with pages of size n >= 2, gets exactly the
      stream's values with their IDs, each once and in order, from request number
      (m - 1) / (n - 1), rounded up, on. */
  lemma ClientGetsStream(entries: seq<Entry>, n: nat, pages: nat)
    requires Proper(entries) && AllRepresentable(entries) && entries != []
    requires n >= 2 && pages >= 1 && pages * (n - 1) >= |entries| - 1
    ensures var got := AskAll(entries, n, pages).got;
            && |got| == |entries|
            && forall i :: 0 <= i < |entries| ==>
                 got[i].value == entries[i].value && ParseEntryId(got[i].entryId) == Some(entries[i].id)
  {
    TwoReadersAgree(entries, n, pages, |entries|);
    AskAllMirrors(entries, n, pages);
    AnswerTells(entries);
  }

  /** An answer, or a call that is still waiting for an entry. */
  datatype Reply = Answered(result: Result<Entry>) | Waits

  /** GetStreamValue: parse the name, check the account, read the entry strictly after the one
      named.  When there is none the client's XREAD blocks until there is one, so the branch for
      NotFound is never reached. */
  method GetStreamValue(store: StreamStore, name: string, subject: Option<string>,
                        readId: string -> Option<EntryId>) returns (r: Reply)
    requires forall key :: SortedEntries(store.At(key).stream.entries)
    ensures var fields := ParseValueName(name);
            if fields.Err? then r == Answered(Err(InvalidArgument))
            else if subject != Some(fields.value[0]) then r == Answered(Err(PermissionDenied))
            else if readId(fields.value[2]).None? then r == Answered(Err(Internal))
            else IsSuccessor(Visible(store.At(StreamName(fields.value[0], fields.value[1]))),
                             readId(fields.value[2]).value, r)
  {
    var fields := ParseValueName(name);
    if fields.Err? {
      return Answered(Err(InvalidArgument));
    }
    if subject != Some(fields.value[0]) {
      return Answered(Err(PermissionDenied));
    }
    var streamId := StreamName(fields.value[0], fields.value[1]);
    var id := readId(fields.value[2]);
    if id.None? {
      return Answered(Err(Internal));
    }
    var entries := Visible(store.At(streamId));
    SuccessorIsNext(entries, id.value);
    var found := Successor(entries, id.value);
    match found {
      case None => return Waits;
      case Some(e) => return Answered(Ok(e));
    }
  }

  /** The answer is the least entry above `id`; the call waits if there is none. */
  ghost predicate IsSuccessor(entries: seq<Entry>, id: EntryId, r: Reply) {
    match r
    case Waits => forall x :: x in entries ==> AtMost(x.id, id)
    case Answered(Err(_)) => false
    case Answered(Ok(e)) => e in entries && Less(id, e.id)
                            && forall x :: x in entries && Less(id, x.id) ==> AtMost(e.id, x.id)
  }

  lemma SuccessorOfLonger(entries: seq<Entry>, id: EntryId, x: Entry)
    requires SortedEntries(entries + [x]) && forall e :: e in entries ==> AtMost(e.id, id)
    ensures Successor(entries + [x], id) == if Less(id, x.id) then Some(x) else None
  {
    var all := entries + [x];
    var k := Older(all, EntryId(id.ms, id.number + 1));
    assert all[|entries|] == x && forall i :: 0 <= i < |entries| ==> all[i] == entries[i] && all[i] in entries;
  }

  /** A waiting call is answered by the first entry added above the ID it names. */
  lemma WaitEndsIff(st: State, id: EntryId, value: Bytes, trim: Trim)
    requires Sane(st) && Successor(Visible(st), id).None?
    ensures var after := Append(st, value, trim);
            Successor(Visible(after), id) ==
            if Less(id, after.stream.lastId) then Some(Entry(after.stream.lastId, value)) else None
  {
    var after := Append(st, value, trim);
    AppendSane(st, value, trim);
    AppendAddsLast(st, value, trim);
    SuccessorIsNext(Visible(st), id);
    var n := |after.stream.entries| - 1;
    var kept, last := after.stream.entries[..n], Entry(after.stream.lastId, value);
    assert after.stream.entries == kept + [last];
    SuccessorOfLonger(kept, id, last);
  }

  lemma SuccessorIsNext(entries: seq<Entry>, id: EntryId)
    requires SortedEntries(entries)
    ensures var found := Successor(entries, id);
            IsSuccessor(entries, id, if found.Some? then Answered(Ok(found.value)) else Waits)
  {
    var k := Older(entries, EntryId(id.ms, id.number + 1));
    forall x | x in entries && Less(id, x.id)
      ensures k < |entries| && AtMost(entries[k].id, x.id)
    {
      var i :| 0 <= i < |entries| && entries[i] == x;
      assert i >= k;
    }
  }
}

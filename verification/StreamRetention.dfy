/** Stream writes of internal/api/stream_value_handler.go: one command appends an entry and trims
    those older than a time-derived minimum ID, a second one refreshes the expiry of the whole
    stream, and anything may happen in between. */
module StreamRetention {
  import opened Common
  import opened EntryIds
  import opened ResourceNames

  /** Seven days in milliseconds. */
  const STREAM_TTL := 7 * 24 * 3600 * 1000

  datatype Entry = Entry(id: EntryId, value: Bytes)

  /** One stream key; without an expiry it stays.  An expired stream stays in place until the
      next write, as in Redis' lazy expiry; a stream that was never written is an expired empty
      one. */
  datatype Stream = Stream(entries: seq<Entry>, lastId: EntryId, expiry: Option<int>)

  const NO_STREAM := Stream([], ZERO_ID, Some(0))

  datatype State = State(now: int, stream: Stream)

  predicate Exists(st: State) {
    st.stream.expiry.Some? ==> Alive(st.now, st.stream.expiry.value)
  }

  function Visible(st: State): seq<Entry> {
    if Exists(st) then st.stream.entries else []
  }

  /** The ID Redis gives an entry added with ID '*'. */
  function NextId(last: EntryId, now: int): EntryId {
    if now > last.ms then EntryId(now, 0) else EntryId(last.ms, last.number + 1)
  }

  /** It carries the clock and is the least such ID above the last one. */
  lemma NextIdIsLeast(last: EntryId, now: int, other: EntryId)
    requires 0 <= last.ms <= now && last.number >= 0
    requires other.ms == now && other.number >= 0 && Less(last, other)
    ensures var next := NextId(last, now);
            next.ms == now && next.number >= 0 && Less(last, next) && AtMost(next, other)
  {
  }

  /** The start of the second that was STREAM_TTL ago. */
  function MinId(now: int): EntryId {
    EntryId((now - STREAM_TTL) / 1000 * 1000, 0)
  }

  /** The first position at or after `i` whose ID is not below `id`. */
  function OlderFrom(entries: seq<Entry>, id: EntryId, i: nat): (k: nat)
    requires i <= |entries|
    ensures i <= k <= |entries|
    ensures forall j :: i <= j < k ==> Less(entries[j].id, id)
    ensures k < |entries| ==> !Less(entries[k].id, id)
    decreases |entries| - i
  {
    if i < |entries| && Less(entries[i].id, id) then OlderFrom(entries, id, i + 1) else i
  }

  /** How many leading entries have an ID below `id`. */
  function Older(entries: seq<Entry>, id: EntryId): (k: nat)
    ensures k <= |entries|
    ensures forall j :: 0 <= j < k ==> Less(entries[j].id, id)
    ensures k < |entries| ==> !Less(entries[k].id, id)
  {
    OlderFrom(entries, id, 0)
  }

  /** Approximate trimming drops any number of the entries it may drop. */
  datatype Trim = Full | Partial(atMost: nat)

  function Cut(entries: seq<Entry>, now: int, trim: Trim): (k: nat)
    ensures k <= Older(entries, MinId(now))
  {
    var older := Older(entries, MinId(now));
    match trim
    case Full => older
    case Partial(n) => if n < older then n else older
  }

  /** What XADD finds: a stream it creates has no expiry. */
  function Base(st: State): Stream {
    if Exists(st) then st.stream else Stream([], ZERO_ID, None)
  }

  /** XADD with MINID ~. */
  function Append(st: State, value: Bytes, trim: Trim): State {
    var base := Base(st);
    var id := NextId(base.lastId, st.now);
    var kept := base.entries[Cut(base.entries, st.now, trim)..];
    State(st.now, Stream(kept + [Entry(id, value)], id, base.expiry))
  }

  /** EXPIRE, which does nothing to a missing key. */
  function Renew(st: State): State {
    if Exists(st) then st.(stream := st.stream.(expiry := Some(st.now + STREAM_TTL))) else st
  }

  datatype Event =
    | Add(value: Bytes, trim: Trim)     // the XADD of a write
    | Refresh                           // the EXPIRE of a write
    | Write(value: Bytes, trim: Trim)   // both, with nothing in between
    | Advance(millis: nat)

  /** Redis refuses the negative minimum ID of a clock before 8 January 1970. */
  predicate Refused(st: State) {
    MinId(st.now).ms < 0
  }

  function Step(st: State, e: Event): State {
    match e
    case Add(value, trim) => if Refused(st) then st else Append(st, value, trim)
    case Refresh => Renew(st)
    case Write(value, trim) => if Refused(st) then st else Renew(Append(st, value, trim))
    case Advance(millis) => st.(now := st.now + millis)
  }

  function Run(st: State, events: seq<Event>): State {
    if events == [] then st
    else Step(Run(st, events[..|events| - 1]), events[|events| - 1])
  }

  ghost predicate SortedEntries(entries: seq<Entry>) {
    forall i, j :: 0 <= i < j < |entries| ==> Less(entries[i].id, entries[j].id)
  }

  /** What every reachable stream satisfies: IDs increase, start above 0-0 and carry the time of
      their write, and the last one was given while the stream existed. */
  ghost predicate Sane(st: State) {
    && st.now > 0
    && SortedEntries(st.stream.entries)
    && (forall e :: e in st.stream.entries ==>
          Less(ZERO_ID, e.id) && e.id.number >= 0 && AtMost(e.id, st.stream.lastId))
    && 0 <= st.stream.lastId.ms <= st.now
    && st.stream.lastId.number >= 0
    && (st.stream.expiry.Some? ==> st.stream.lastId.ms <= st.stream.expiry.value)
  }

  lemma SortedSuffix(entries: seq<Entry>, k: nat)
    requires SortedEntries(entries) && k <= |entries|
    ensures SortedEntries(entries[k..])
    ensures forall e :: e in entries[k..] ==> e in entries
  {
    assert forall i :: 0 <= i < |entries| - k ==> entries[k..][i] == entries[i + k];
  }

  lemma SortedSnoc(entries: seq<Entry>, x: Entry)
    requires SortedEntries(entries)
    requires forall e :: e in entries ==> Less(e.id, x.id)
    ensures SortedEntries(entries + [x])
  {
  }

  lemma BaseSane(st: State)
    requires Sane(st)
    ensures var base := Base(st);
            && SortedEntries(base.entries) && 0 <= base.lastId.ms <= st.now && base.lastId.number >= 0
            && (forall e :: e in base.entries ==>
                  Less(ZERO_ID, e.id) && e.id.number >= 0 && Less(e.id, NextId(base.lastId, st.now)))
  {
  }

  lemma AppendSane(st: State, value: Bytes, trim: Trim)
    requires Sane(st)
    ensures Sane(Append(st, value, trim)) && Exists(Append(st, value, trim))
  {
    var base := Base(st);
    var kept := base.entries[Cut(base.entries, st.now, trim)..];
    BaseSane(st);
    SortedSuffix(base.entries, Cut(base.entries, st.now, trim));
    SortedSnoc(kept, Entry(NextId(base.lastId, st.now), value));
  }

  lemma StepSane(st: State, e: Event)
    requires Sane(st)
    ensures Sane(Step(st, e))
  {
    if (e.Add? || e.Write?) && !Refused(st) {
      AppendSane(st, e.value, e.trim);
    }
  }

  lemma {:induction false} RunSane(st: State, events: seq<Event>)
    requires Sane(st)
    ensures Sane(Run(st, events))
  {
    if events != [] {
      RunSane(st, events[..|events| - 1]);
      StepSane(Run(st, events[..|events| - 1]), events[|events| - 1]);
    }
  }

  /** An append adds one entry, at the end, above every earlier ID and stamped with the clock,
      keeps only entries that could be read, and leaves the expiry as it was; a new stream has
      none. */
  lemma AppendAddsLast(st: State, value: Bytes, trim: Trim)
    requires Sane(st)
    ensures var next := Append(st, value, trim).stream;
            && next.entries[|next.entries| - 1] == Entry(next.lastId, value)
            && next.lastId.ms == st.now && next.expiry == Base(st).expiry
            && Less(st.stream.lastId, next.lastId)
            && forall e :: e in next.entries[..|next.entries| - 1] ==> e in Visible(st)
  {
    var base := Base(st);
    var kept := base.entries[Cut(base.entries, st.now, trim)..];
    var next := Append(st, value, trim).stream;
    assert next.entries[..|next.entries| - 1] == kept;
  }

  // ---------- How long an entry is kept at least ----------

  /** An entry added under STREAM_TTL ago is not trimmed. */
  lemma AppendKeeps(st: State, value: Bytes, trim: Trim, x: Entry)
    requires x in Visible(st) && x.id.number >= 0 && st.now <= x.id.ms + STREAM_TTL
    ensures x in Append(st, value, trim).stream.entries
  {
    var base := Base(st);
    var cut := Cut(base.entries, st.now, trim);
    var i :| 0 <= i < |base.entries| && base.entries[i] == x;
    assert i >= cut;
    assert x == base.entries[cut..][i - cut];
  }

  /** The clock at the first refresh of a run, if there is one. */
  function FirstRefresh(st: State, events: seq<Event>): Option<int> {
    if events == [] then None
    else
      var init, last := events[..|events| - 1], events[|events| - 1];
      var before := FirstRefresh(st, init);
      if before.Some? then before
      else if last.Refresh? || last.Write? then Some(Run(st, init).now)
      else None
  }

  /** The first refresh, or else the present, is no later than the given expiry, if any. */
  predicate InTime(first: Option<int>, now: int, expiry: Option<int>) {
    expiry.Some? ==> (if first.Some? then first.value else now) <= expiry.value
  }

  /** The entry is there and stays until STREAM_TTL after it was added, unless the stream has yet
      to be refreshed; then it stays as long as the stream it was added to. */
  ghost predicate Held(st: State, x: Entry, expiry: Option<int>, first: Option<int>) {
    && x in st.stream.entries && Exists(st)
    && (first.None? ==> st.stream.expiry == expiry)
    && (first.Some? ==> st.stream.expiry.Some? && st.stream.expiry.value >= x.id.ms + STREAM_TTL)
  }

  /** All that can be read was added later. */
  ghost predicate Gone(st: State, x: Entry) {
    st.now > x.id.ms && forall y :: y in Visible(st) ==> y.id.ms > x.id.ms
  }

  lemma AppendGone(st: State, value: Bytes, trim: Trim, x: Entry)
    requires Gone(st, x)
    ensures Gone(Append(st, value, trim), x)
  {
    var base := Base(st);
    var cut := Cut(base.entries, st.now, trim);
    assert forall y :: y in base.entries[cut..] ==> y in Visible(st);
  }

  lemma StepGone(st: State, e: Event, x: Entry)
    requires Gone(st, x)
    ensures Gone(Step(st, e), x)
  {
    if (e.Add? || e.Write?) && !Refused(st) {
      AppendGone(st, e.value, e.trim, x);
    }
  }

  lemma StepHeld(st: State, e: Event, x: Entry, expiry: Option<int>, first: Option<int>)
    requires Held(st, x, expiry, first) && x.id.number >= 0 && x.id.ms <= st.now
    requires Step(st, e).now <= x.id.ms + STREAM_TTL && MinId(x.id.ms).ms >= 0
    ensures var next := Step(st, e);
            var first' := if first.None? && (e.Refresh? || e.Write?) then Some(st.now) else first;
            if InTime(first', next.now, expiry) || first.Some? then Held(next, x, expiry, first')
            else e.Advance? && next.now > expiry.value
  {
    if e.Add? || e.Write? {
      AppendKeeps(st, e.value, e.trim, x);
    }
  }

  lemma {:induction false} RunHeldIff(st: State, events: seq<Event>, x: Entry, expiry: Option<int>)
    requires Held(st, x, expiry, None) && x.id.number >= 0 && x.id.ms == st.now && MinId(st.now).ms >= 0
    requires Run(st, events).now <= x.id.ms + STREAM_TTL
    ensures var first, after := FirstRefresh(st, events), Run(st, events);
            && after.now >= st.now
            && if InTime(first, after.now, expiry) then Held(after, x, expiry, first) else Gone(after, x)
  {
    if events != [] {
      var init, e := events[..|events| - 1], events[|events| - 1];
      var before := Run(st, init);
      assert before.now <= Run(st, events).now;
      RunHeldIff(st, init, x, expiry);
      if InTime(FirstRefresh(st, init), before.now, expiry) {
        StepHeld(before, e, x, expiry, FirstRefresh(st, init));
      } else {
        StepGone(before, e, x);
      }
    }
  }

  /** Retention lower bound, with the commands of all writers interleaved in any way and trims of
      any extent: up to STREAM_TTL after it was added an entry can be read exactly when the
      stream had no expiry when it was added, or the first EXPIRE that followed, or the present
      if none has, is no later than the expiry the stream then had. */
  lemma KeptForStreamTtlIff(st: State, value: Bytes, trim: Trim, events: seq<Event>)
    requires Sane(st) && !Refused(st)
    requires Run(Append(st, value, trim), events).now <= st.now + STREAM_TTL
    ensures var added := Append(st, value, trim);
            var after := Run(added, events);
            Entry(added.stream.lastId, value) in Visible(after) <==>
            InTime(FirstRefresh(added, events), after.now, Base(st).expiry)
  {
    var added := Append(st, value, trim);
    var x := Entry(added.stream.lastId, value);
    AppendSane(st, value, trim);
    AppendAddsLast(st, value, trim);
    assert x in added.stream.entries;
    RunHeldIff(added, events, x, Base(st).expiry);
  }

  /** So an entry whose EXPIRE follows its XADD at once is kept for STREAM_TTL, whatever the
      commands of other writers do before and after. */
  lemma KeptForStreamTtl(st: State, value: Bytes, trim: Trim, events: seq<Event>)
    requires Sane(st) && !Refused(st)
    requires Run(Step(st, Write(value, trim)), events).now <= st.now + STREAM_TTL
    ensures Entry(Append(st, value, trim).stream.lastId, value) in Visible(Run(Step(st, Write(value, trim)), events))
  {
    var added := Append(st, value, trim);
    var all := [Refresh] + events;
    RunFrom(added, Refresh, events);
    KeptForStreamTtlIff(st, value, trim, all);
  }

  /** A run may be read from its first event. */
  lemma {:induction false} RunFrom(st: State, e: Event, events: seq<Event>)
    requires e.Refresh?
    ensures Run(st, [e] + events) == Run(Step(st, e), events)
    ensures FirstRefresh(st, [e] + events) == Some(st.now)
  {
    var all := [e] + events;
    if events == [] {
      assert all == [e] && all[..0] == [];
    } else {
      var n := |events| - 1;
      assert all[..|all| - 1] == [e] + events[..n] && all[|all| - 1] == events[n];
      RunFrom(st, e, events[..n]);
    }
  }

  /** In numbers: a single whole write can be read for exactly 604,800,000 milliseconds. */
  lemma KeptForAWeek(start: int, v: Bytes, millis: nat)
    requires start >= 604_800_000
    ensures var after := Run(State(start, NO_STREAM), [Write(v, Full), Advance(millis)]);
            if millis <= 604_800_000 then Visible(after) == [Entry(EntryId(start, 0), v)] else Visible(after) == []
  {
    RunTwoMore(State(start, NO_STREAM), [], Write(v, Full), Advance(millis));
    assert [] + [Write(v, Full), Advance(millis)] == [Write(v, Full), Advance(millis)];
  }

  /** Two writers, the second in the last millisecond of the stream. */
  function LateRefresh(v: Bytes, w: Bytes): seq<Event> {
    [Write(v, Full), Advance(STREAM_TTL), Add(w, Full)] + [Advance(1), Refresh]
  }

  /** The second write is answered with a lifetime of STREAM_TTL, and its entry is gone after a
      millisecond: the stream expired before its EXPIRE, which did nothing. */
  lemma LateRefreshLosesEntry(start: int, v: Bytes, w: Bytes)
    requires start >= STREAM_TTL
    ensures var added := Run(State(start, NO_STREAM), LateRefresh(v, w)[..3]);
            var after := Run(State(start, NO_STREAM), LateRefresh(v, w));
            && Entry(added.stream.lastId, w) in Visible(added)
            && after.now == added.now + 1 && Visible(after) == []
  {
    var s0 := State(start, NO_STREAM);
    var e1 := [Write(v, Full), Advance(STREAM_TTL)];
    RunTwoMore(s0, [], Write(v, Full), Advance(STREAM_TTL));
    assert [] + e1 == e1;
    RunOneMore(s0, e1, Add(w, Full));
    assert LateRefresh(v, w)[..3] == e1 + [Add(w, Full)];
    RunTwoMore(s0, e1 + [Add(w, Full)], Advance(1), Refresh);
    assert LateRefresh(v, w) == e1 + [Add(w, Full)] + [Advance(1), Refresh];
    LastMillisecond(start, v, w);
  }

  lemma RunOneMore(st: State, events: seq<Event>, e: Event)
    ensures Run(st, events + [e]) == Step(Run(st, events), e)
  {
    assert (events + [e])[..|events|] == events;
  }

  lemma LastMillisecond(start: int, v: Bytes, w: Bytes)
    requires start >= STREAM_TTL
    ensures var st := Step(Step(State(start, NO_STREAM), Write(v, Full)), Advance(STREAM_TTL));
            var added := Step(st, Add(w, Full));
            && added.now == start + STREAM_TTL && added.stream.expiry == Some(start + STREAM_TTL)
            && Entry(added.stream.lastId, w) in Visible(added)
  {
  }

  // ---------- How long an entry is kept at most ----------

  /** Every write is whole: its EXPIRE follows its XADD at once. */
  ghost predicate WholeWrites(events: seq<Event>) {
    forall e :: e in events ==> e.Write? || e.Advance?
  }

  /** Without its EXPIRE a new stream stays for good. */
  lemma UnrefreshedStays(start: int, v: Bytes, millis: nat)
    requires start >= STREAM_TTL
    ensures Entry(EntryId(start, 0), v) in Visible(Run(State(start, NO_STREAM), [Add(v, Full), Advance(millis)]))
  {
    var s0 := State(start, NO_STREAM);
    RunTwoMore(s0, [], Add(v, Full), Advance(millis));
    assert [] + [Add(v, Full), Advance(millis)] == [Add(v, Full), Advance(millis)];
    AppendAddsLast(s0, v, Full);
  }

  /** The stream expires STREAM_TTL after its last write. */
  predicate Renewed(st: State) {
    st.stream == NO_STREAM || st.stream.expiry == Some(st.stream.lastId.ms + STREAM_TTL)
  }

  ghost predicate CompleteTrimming(events: seq<Event>) {
    forall e :: e in events && e.Write? ==> e.trim.Full?
  }

  /** Nothing kept is older than the minimum ID of the last write. */
  ghost predicate Trimmed(st: State) {
    forall x :: x in st.stream.entries ==> !Less(x.id, MinId(st.stream.lastId.ms))
  }

  lemma WriteTrims(st: State, value: Bytes)
    requires Sane(st)
    ensures Trimmed(Renew(Append(st, value, Full))) && Renewed(Renew(Append(st, value, Full)))
  {
    var base := Base(st);
    AppendSane(st, value, Full);
    var min := MinId(st.now);
    var k := Older(base.entries, min);
    var kept := base.entries[k..];
    assert Append(st, value, Full).stream.lastId.ms == st.now;
    forall x | x in kept ensures !Less(x.id, min) {
      var i :| 0 <= i < |kept| && kept[i] == x;
      assert x == base.entries[k + i];
      assert i > 0 ==> Less(base.entries[k].id, base.entries[k + i].id);
    }
  }

  lemma {:induction false} RunTrims(st: State, events: seq<Event>)
    requires Sane(st) && Trimmed(st) && Renewed(st) && WholeWrites(events) && CompleteTrimming(events)
    ensures Trimmed(Run(st, events)) && Renewed(Run(st, events))
  {
    if events != [] {
      var before := Run(st, events[..|events| - 1]);
      RunTrims(st, events[..|events| - 1]);
      RunSane(st, events[..|events| - 1]);
      var last := events[|events| - 1];
      assert last in events;
      if last.Write? {
        WriteTrims(before, last.value);
      }
    }
  }

  /** Retention upper bound: with whole writes and complete trimming no entry is readable longer than
      2 * STREAM_TTL and the rest of the second it was written in. */
  lemma GoneAfterTwiceStreamTtl(start: int, events: seq<Event>, x: Entry)
    requires start > 0 && WholeWrites(events) && CompleteTrimming(events)
    requires x in Visible(Run(State(start, NO_STREAM), events))
    ensures Run(State(start, NO_STREAM), events).now - x.id.ms <= 2 * STREAM_TTL + RestOfSecond(x.id.ms)
  {
    RunTrims(State(start, NO_STREAM), events);
    RunSane(State(start, NO_STREAM), events);
    AgeOfTrimmed(Run(State(start, NO_STREAM), events), x);
  }

  lemma AgeOfTrimmed(st: State, x: Entry)
    requires Trimmed(st) && Renewed(st) && x in Visible(st)
    ensures st.now - x.id.ms <= 2 * STREAM_TTL + RestOfSecond(x.id.ms)
  {
    assert !Less(x.id, MinId(st.stream.lastId.ms));
    assert st.now <= st.stream.lastId.ms + STREAM_TTL;
    RoundedAge(x.id.ms, st.stream.lastId.ms);
  }

  lemma RoundedAge(ms: int, last: int)
    requires ms >= MinId(last).ms
    ensures last - ms <= STREAM_TTL + RestOfSecond(ms)
  {
    var q := (last - STREAM_TTL) / 1000;
    assert ms / 1000 >= q;
  }

  /** The milliseconds that follow `ms` in its second. */
  function RestOfSecond(ms: int): nat {
    999 - ms % 1000
  }

  /** A write and then a wait. */
  function WriteAndWait(st: State, v: Bytes, millis: nat): State {
    Step(Step(st, Write(v, Full)), Advance(millis))
  }

  /** A write that finds nothing to trim. */
  lemma WriteKeepsAll(st: State, v: Bytes, millis: nat)
    requires st.stream.expiry.Some? && Exists(st) && st.now > st.stream.lastId.ms && !Refused(st)
    requires st.stream.entries != [] && !Less(st.stream.entries[0].id, MinId(st.now))
    ensures WriteAndWait(st, v, millis) ==
            State(st.now + millis,
                  Stream(st.stream.entries + [Entry(EntryId(st.now, 0), v)], EntryId(st.now, 0), Some(st.now + STREAM_TTL)))
  {
    assert Older(st.stream.entries, MinId(st.now)) == 0;
    assert st.stream.entries[0..] == st.stream.entries;
  }

  /** Three writes of which the last is as late as it can be without trimming the first. */
  function LatestWrites(start: int, v: Bytes): seq<Event> {
    [Write(v, Full), Advance(1000)]
    + [Write(v, Full), Advance(STREAM_TTL + RestOfSecond(start) - 1000)]
    + [Write(v, Full), Advance(STREAM_TTL)]
  }

  /** The stream after one and after two of these writes. */
  function OneWritten(start: int, v: Bytes): State {
    var x := Entry(EntryId(start, 0), v);
    State(start + 1000, Stream([x], x.id, Some(start + STREAM_TTL)))
  }

  function TwoWritten(start: int, v: Bytes): State {
    var x, y := Entry(EntryId(start, 0), v), Entry(EntryId(start + 1000, 0), v);
    State(start + STREAM_TTL + RestOfSecond(start), Stream([x, y], y.id, Some(start + 1000 + STREAM_TTL)))
  }

  lemma RunPair(st: State, events: seq<Event>, e: Event, f: Event, before: State, after: State)
    requires Run(st, events) == before && Step(Step(before, e), f) == after
    ensures Run(st, events + [e, f]) == after
  {
    RunTwoMore(st, events, e, f);
  }

  /** The minimum ID of that last write is not past the first. */
  lemma LatestMinId(start: int)
    ensures MinId(start + STREAM_TTL + RestOfSecond(start)) == EntryId(start - start % 1000, 0)
  {
    var q := start / 1000;
    assert (1000 * q + 999) / 1000 == q;
  }

  lemma FirstOfLatest(start: int, v: Bytes)
    requires start >= STREAM_TTL
    ensures WriteAndWait(State(start, NO_STREAM), v, 1000) == OneWritten(start, v)
  {
    assert [][0..] + [Entry(EntryId(start, 0), v)] == [Entry(EntryId(start, 0), v)];
  }

  lemma SecondOfLatest(start: int, v: Bytes)
    requires start >= STREAM_TTL
    ensures WriteAndWait(OneWritten(start, v), v, STREAM_TTL + RestOfSecond(start) - 1000) == TwoWritten(start, v)
  {
    var x, y := Entry(EntryId(start, 0), v), Entry(EntryId(start + 1000, 0), v);
    WriteKeepsAll(OneWritten(start, v), v, STREAM_TTL + RestOfSecond(start) - 1000);
    assert [x] + [y] == [x, y];
  }

  lemma ThirdOfLatest(start: int, v: Bytes)
    requires start >= STREAM_TTL
    ensures var st := WriteAndWait(TwoWritten(start, v), v, STREAM_TTL);
            Entry(EntryId(start, 0), v) in Visible(st) && st.now == start + 2 * STREAM_TTL + RestOfSecond(start)
  {
    LatestMinId(start);
    WriteKeepsAll(TwoWritten(start, v), v, STREAM_TTL);
    assert WriteAndWait(TwoWritten(start, v), v, STREAM_TTL).stream.entries[0] == Entry(EntryId(start, 0), v);
  }

  lemma RunTwoOfLatest(start: int, v: Bytes)
    requires start >= STREAM_TTL
    ensures var w := Write(v, Full);
            Run(State(start, NO_STREAM),
                [w, Advance(1000)] + [w, Advance(STREAM_TTL + RestOfSecond(start) - 1000)]) == TwoWritten(start, v)
  {
    var s0, w := State(start, NO_STREAM), Write(v, Full);
    FirstOfLatest(start, v);
    SecondOfLatest(start, v);
    RunPair(s0, [], w, Advance(1000), s0, OneWritten(start, v));
    assert [] + [w, Advance(1000)] == [w, Advance(1000)];
    RunPair(s0, [w, Advance(1000)], w, Advance(STREAM_TTL + RestOfSecond(start) - 1000),
            OneWritten(start, v), TwoWritten(start, v));
  }

  /** That bound is attained, whenever the entry is written: the intended bound of exactly
      2 * STREAM_TTL is exceeded by the rest of the second. */
  lemma TwiceStreamTtlIsExceeded(start: int, v: Bytes)
    requires start >= STREAM_TTL
    ensures var st := Run(State(start, NO_STREAM), LatestWrites(start, v));
            Entry(EntryId(start, 0), v) in Visible(st)
            && st.now - start == 2 * STREAM_TTL + RestOfSecond(start)
  {
    var w := Write(v, Full);
    RunTwoOfLatest(start, v);
    ThirdOfLatest(start, v);
    RunPair(State(start, NO_STREAM), [w, Advance(1000)] + [w, Advance(STREAM_TTL + RestOfSecond(start) - 1000)],
            w, Advance(STREAM_TTL), TwoWritten(start, v), WriteAndWait(TwoWritten(start, v), v, STREAM_TTL));
  }

  lemma LatestWritesTrim(start: int, v: Bytes)
    ensures WholeWrites(LatestWrites(start, v)) && CompleteTrimming(LatestWrites(start, v))
  {
  }

  /** No completely trimmed run lets an entry written at `time` be read after 2 * STREAM_TTL. */
  ghost predicate GoneInTime(time: int) {
    forall start, events, x: Entry ::
      start > 0 && WholeWrites(events) && CompleteTrimming(events) && x.id.ms == time
      && x in Visible(Run(State(start, NO_STREAM), events)) ==>
        Run(State(start, NO_STREAM), events).now - time <= 2 * STREAM_TTL
  }

  /** The intended bound holds exactly for entries written in the last millisecond of a second. */
  lemma GoneInTimeIff(time: int)
    requires time >= STREAM_TTL
    ensures GoneInTime(time) <==> time % 1000 == 999
  {
    if time % 1000 == 999 {
      forall start, events, x: Entry
        | start > 0 && WholeWrites(events) && CompleteTrimming(events) && x.id.ms == time
          && x in Visible(Run(State(start, NO_STREAM), events))
        ensures Run(State(start, NO_STREAM), events).now - time <= 2 * STREAM_TTL
      {
        GoneAfterTwiceStreamTtl(start, events, x);
      }
    } else {
      TwiceStreamTtlIsExceeded(time, []);
      LatestWritesTrim(time, []);
      assert Entry(EntryId(time, 0), []).id.ms == time;
    }
  }

  /** One event and then `n` times two others. */
  function Repeating(first: Event, e: Event, f: Event, n: nat): seq<Event> {
    if n == 0 then [first] else Repeating(first, e, f, n - 1) + [e, f]
  }

  /** A stream written once every STREAM_TTL, never trimmed. */
  function Hoarding(n: nat, v: Bytes): seq<Event> {
    Repeating(Write(v, Partial(0)), Advance(STREAM_TTL), Write(v, Partial(0)), n)
  }

  /** The entry `x` is still first, and the stream was written just now. */
  ghost predicate Hoarded(st: State, x: Entry, now: int) {
    && st.now == now && st.stream.expiry == Some(now + STREAM_TTL)
    && st.stream.entries != [] && st.stream.entries[0] == x
  }

  lemma FirstWrite(start: int, v: Bytes)
    requires start >= STREAM_TTL
    ensures Hoarded(Step(State(start, NO_STREAM), Write(v, Partial(0))), Entry(EntryId(start, 0), v), start)
  {
    assert NO_STREAM.entries[0..] == [];
  }

  lemma HoardStep(st: State, x: Entry, v: Bytes)
    requires st.now >= STREAM_TTL && Hoarded(st, x, st.now)
    ensures Hoarded(Step(Step(st, Advance(STREAM_TTL)), Write(v, Partial(0))), x, st.now + STREAM_TTL)
  {
  }

  function HoardTime(start: int, n: nat): int {
    if n == 0 then start else HoardTime(start, n - 1) + STREAM_TTL
  }

  lemma {:induction false} HoardTimeIs(start: int, n: nat)
    ensures HoardTime(start, n) == start + n * STREAM_TTL
  {
    if n > 0 {
      HoardTimeIs(start, n - 1);
      assert (n - 1) * STREAM_TTL + STREAM_TTL == n * STREAM_TTL;
    }
  }

  lemma HoardPair(st: State, events: seq<Event>, before: State, x: Entry, time: int, v: Bytes)
    requires Run(st, events) == before && time >= STREAM_TTL && Hoarded(before, x, time)
    ensures Hoarded(Run(st, events + [Advance(STREAM_TTL), Write(v, Partial(0))]), x, time + STREAM_TTL)
  {
    HoardStep(before, x, v);
    RunPair(st, events, Advance(STREAM_TTL), Write(v, Partial(0)), before,
            Step(Step(before, Advance(STREAM_TTL)), Write(v, Partial(0))));
  }

  lemma {:induction false} HoardingHoards(st: State, first: Event, v: Bytes, n: nat, x: Entry, start: int)
    requires start >= STREAM_TTL && Hoarded(Run(st, [first]), x, start)
    ensures HoardTime(start, n) >= STREAM_TTL
    ensures Hoarded(Run(st, Repeating(first, Advance(STREAM_TTL), Write(v, Partial(0)), n)), x, HoardTime(start, n))
  {
    if n > 0 {
      HoardingHoards(st, first, v, n - 1, x, start);
      var events := Repeating(first, Advance(STREAM_TTL), Write(v, Partial(0)), n - 1);
      HoardPair(st, events, Run(st, events), x, HoardTime(start, n - 1), v);
    }
  }

  /** With approximate trimming alone there is no upper bound at all: an entry can be readable
      any number of STREAM_TTLs after it was written. */
  lemma ApproximateTrimmingHasNoBound(start: int, n: nat, v: Bytes)
    requires start >= STREAM_TTL
    ensures Hoarded(Run(State(start, NO_STREAM), Hoarding(n, v)), Entry(EntryId(start, 0), v), start + n * STREAM_TTL)
  {
    var s0, w := State(start, NO_STREAM), Write(v, Partial(0));
    FirstWrite(start, v);
    RunOneMore(s0, [], w);
    assert [] + [w] == [w];
    HoardingHoards(s0, w, v, n, Entry(EntryId(start, 0), v), start);
    HoardTimeIs(start, n);
  }

  lemma RunTwoMore(st: State, events: seq<Event>, e: Event, f: Event)
    ensures Run(st, events + [e, f]) == Step(Step(Run(st, events), e), f)
  {
    var all := events + [e, f];
    assert all[..|all| - 1] == events + [e];
    assert (events + [e])[..|events|] == events;
  }

  datatype Created = Created(name: string, ttl: int)

  /** The stream keys of Redis. */
  class StreamStore {
    var now: int
    var streams: map<string, Stream>

    function At(key: string): State
      reads this
    {
      State(now, if key in streams then streams[key] else NO_STREAM)
    }

    ghost predicate Valid()
      reads this
    {
      forall key :: Sane(At(key))
    }

    constructor (start: int)
      requires start > 0
      ensures Valid() && now == start && streams == map[]
    {
      now, streams := start, map[];
    }

    method XAdd(parent: string, value: Bytes, trim: Trim) returns (id: EntryId)
      requires Valid()
      modifies this`streams
      ensures Valid()
      ensures At(parent) == Append(old(At(parent)), value, trim) && id == At(parent).stream.lastId
      ensures forall key :: key != parent ==> At(key) == old(At(key))
      ensures id.ms == now && id.number >= 0
    {
      AppendSane(At(parent), value, trim);
      AppendAddsLast(At(parent), value, trim);
      var base := Base(At(parent));
      var kept := base.entries[Cut(base.entries, now, trim)..];
      id := NextId(base.lastId, now);
      streams := streams[parent := Stream(kept + [Entry(id, value)], id, base.expiry)];
      assert forall key :: key != parent ==> At(key) == old(At(key));
    }

    method Expire(parent: string)
      requires Valid()
      modifies this`streams
      ensures Valid()
      ensures At(parent) == Renew(old(At(parent)))
      ensures forall key :: key != parent ==> At(key) == old(At(key))
    {
      if parent in streams && Exists(At(parent)) {
        streams := streams[parent := streams[parent].(expiry := Some(now + STREAM_TTL))];
      }
      assert forall key :: key != parent ==> At(key) == old(At(key));
    }

    method Sleep(millis: nat)
      requires Valid()
      modifies this`now
      ensures Valid()
      ensures now == old(now) + millis && forall key :: At(key) == Step(old(At(key)), Advance(millis))
    {
      now := now + millis;
      assert forall key :: At(key) == Step(old(At(key)), Advance(millis));
    }

    /** CreateStreamValue: the XADD, then `delay` milliseconds, then the EXPIRE.  It answers with
        the name of the new entry and the stream's lifetime, also if the EXPIRE comes too late.
        `trim` is Redis' choice. */
    method CreateStreamValue(parent: string, value: Bytes, trim: Trim, delay: nat) returns (r: Result<Created>)
      requires Valid()
      modifies this
      ensures Valid()
      ensures Refused(old(At(parent))) ==> r == Err(Internal) && now == old(now) && streams == old(streams)
      ensures !Refused(old(At(parent))) ==>
                var added := Append(old(At(parent)), value, trim);
                && added.stream.lastId.ms >= 0 && added.stream.lastId.number >= 0
                && r == Ok(Created(ValueName(parent, PrintEntryId(added.stream.lastId)), 604_800_000))
                && At(parent) == Renew(Step(added, Advance(delay)))
                && forall key :: key != parent ==> At(key) == Step(old(At(key)), Advance(delay))
    {
      if MinId(now).ms < 0 {
        return Err(Internal);
      }
      var id := XAdd(parent, value, trim);
      Sleep(delay);
      Expire(parent);
      return Ok(Created(ValueName(parent, PrintEntryId(id)), STREAM_TTL));
    }
  }
}

/** The books of the ledger against what the stores really hold: value bytes, stream bytes and
    the listings of the provider index, as their handlers leave them. */
module Holdings {
  import opened Common
  import opened Pricing
  import L = Ledger
  import V = Values
  import S = StreamRetention
  import I = ProviderIndex

  datatype Env = Env(hash: (string, string) -> string, values: V.Env, index: I.Env)

  datatype World = World(books: L.World, values: V.Store, streams: map<string, S.Stream>, index: I.Store)

  /** The parts of a request and of its handling that no price depends on. */
  datatype Details = Details(
    choice: V.CodecChoice, ttl: int,                 // of a created value
    name: string, duration: int,                     // of a prolong: the key and what it writes
    parent: string, trim: S.Trim,                    // of a stream value
    ad: I.Advertisement, stamp: int)                 // of a registration, but for its CIDs

  datatype Event =
    | Book(entry: L.Event)                           // redeem, arrive, restart, or drop a request
    | Handle(index: nat, details: Details)           // the handler of one waiting request runs
    | Refresh(parent: string)                        // the EXPIRE that follows a stream value
    | Passes(millis: nat)

  predicate OnBooks(e: Event) {
    e.Book? || e.Handle?
  }

  function StreamAt(w: World, key: string): S.State {
    S.State(w.values.now, if key in w.streams then w.streams[key] else S.NO_STREAM)
  }

  /** What the handler of a request does to the stores. */
  function Apply(env: Env, w: World, req: Request, d: Details): World {
    match req.message
    case CreateValueRequest(value) =>
      w.(values := V.Create(env.values, w.values, d.choice, value, d.ttl).0)
    case ProlongValueRequest(_) => w.(values := V.SetExpiry(w.values, d.name, d.duration))
    case CreateStreamValueRequest(entry) =>
      w.(streams := w.streams[d.parent := S.Step(StreamAt(w, d.parent), S.Add(entry, d.trim)).stream])
    case RegisterInstanceRequest(cids) =>
      var ad := d.ad.(cids := cids);
      if I.Accepts(env.index, ad) then w.(index := I.Register(env.index, w.index, ad, d.stamp)) else w
    case OtherRequest => w
  }

  /** The entry in the books that goes with an event. */
  function Entry(e: Event): L.Event
    requires OnBooks(e)
  {
    match e
    case Book(Finish(i, _)) => L.Finish(i, false)
    case Book(entry) => entry
    case Handle(i, _) => L.Finish(i, true)
  }

  function Step(env: Env, w: World, e: Event): World {
    match e
    case Passes(millis) =>
      w.(values := w.values.(now := w.values.now + millis), index := w.index.(now := w.index.now + millis))
    case Refresh(key) =>
      if key in w.streams then w.(streams := w.streams[key := S.Step(StreamAt(w, key), S.Refresh).stream]) else w
    case Book(_) => w.(books := L.Step(env.hash, w.books, Entry(e)))
    case Handle(i, d) =>
      var after := w.(books := L.Step(env.hash, w.books, Entry(e)));
      if i < |w.books.inFlight| && WithinLimits(w.books.inFlight[i])
      then Apply(env, after, w.books.inFlight[i], d) else after
  }

  function Start(salt: string, now: int): World {
    World(L.Start(salt), V.Store(now, map[]), map[], I.Store(now, map[], map[], map[], map[], map[]))
  }

  function Run(env: Env, salt: string, now: int, events: seq<Event>): World {
    if events == [] then Start(salt, now)
    else Step(env, Run(env, salt, now, events[..|events| - 1]), events[|events| - 1])
  }

  /** The entries of a run in the books. */
  function Entries(events: seq<Event>): seq<L.Event> {
    if events == [] then []
    else
      var n := |events| - 1;
      Entries(events[..n]) + if OnBooks(events[n]) then [Entry(events[n])] else []
  }

  lemma StepBooks(env: Env, w: World, e: Event)
    ensures Step(env, w, e).books == if OnBooks(e) then L.Step(env.hash, w.books, Entry(e)) else w.books
  {
  }

  lemma {:induction false} BooksRun(env: Env, salt: string, now: int, events: seq<Event>)
    ensures Run(env, salt, now, events).books == L.RunFrom(env.hash, L.Start(salt), Entries(events))
  {
    if events != [] {
      var n := |events| - 1;
      BooksRun(env, salt, now, events[..n]);
      StepBooks(env, Run(env, salt, now, events[..n]), events[n]);
      var before := Entries(events[..n]);
      if OnBooks(events[n]) {
        assert Entries(events)[..|before|] == before;
      } else {
        assert Entries(events) == before;
      }
    }
  }

  // ---------- What the stores hold ----------

  function ValueSizes(values: map<string, Cell<Bytes>>): map<string, int> {
    map k | k in values :: |values[k].value|
  }

  function EntryBytes(entries: seq<S.Entry>): nat {
    if entries == [] then 0 else |entries[0].value| + EntryBytes(entries[1..])
  }

  function StreamSizes(streams: map<string, S.Stream>): map<string, int> {
    map k | k in streams :: EntryBytes(streams[k].entries)
  }

  /** How many services are listed under each CID. */
  function Listings(cidServices: map<string, map<string, int>>): map<string, int> {
    map c | c in cidServices :: |cidServices[c]|
  }

  /** All bytes and listings in the stores, expired or not, at their prices. */
  ghost function Held(w: World): int {
    Sum(ValueSizes(w.values.values)) + STREAM_BYTE_PRICE * Sum(StreamSizes(w.streams))
    + Sum(Listings(w.index.cidServices))
  }

  lemma CreateHolds(env: V.Env, st: V.Store, choice: V.CodecChoice, value: Bytes, ttl: int)
    ensures Sum(ValueSizes(V.Create(env, st, choice, value, ttl).0.values)) <= Sum(ValueSizes(st.values)) + |value|
  {
    var cid := V.CalculateCid(env, choice, value);
    if cid.Ok? {
      var key := V.PREFIX + cid.value;
      SumUpdate(ValueSizes(st.values), key, |value|);
      assert ValueSizes(V.Create(env, st, choice, value, ttl).0.values) == ValueSizes(st.values)[key := |value|];
    }
  }

  lemma SetExpiryHolds(st: V.Store, key: string, duration: int)
    ensures Sum(ValueSizes(V.SetExpiry(st, key, duration).values)) <= Sum(ValueSizes(st.values))
  {
    var after := V.SetExpiry(st, key, duration).values;
    if key in st.values && key !in after {
      SumRemove(ValueSizes(st.values), key);
      assert ValueSizes(after) == ValueSizes(st.values) - {key};
    } else {
      assert ValueSizes(after) == ValueSizes(st.values);
    }
  }

  lemma {:induction false} EntryBytesSuffix(entries: seq<S.Entry>, k: nat)
    requires k <= |entries|
    ensures EntryBytes(entries[k..]) <= EntryBytes(entries)
  {
    if k > 0 {
      EntryBytesSuffix(entries[1..], k - 1);
      assert entries[1..][k - 1..] == entries[k..];
    } else {
      assert entries[0..] == entries;
    }
  }

  lemma {:induction false} EntryBytesSnoc(entries: seq<S.Entry>, x: S.Entry)
    ensures EntryBytes(entries + [x]) == EntryBytes(entries) + |x.value|
  {
    if entries != [] {
      assert (entries + [x])[1..] == entries[1..] + [x];
      EntryBytesSnoc(entries[1..], x);
    } else {
      assert entries + [x] == [x];
    }
  }

  lemma WriteHolds(st: S.State, entry: Bytes, trim: S.Trim)
    ensures EntryBytes(S.Step(st, S.Add(entry, trim)).stream.entries) <= EntryBytes(st.stream.entries) + |entry|
  {
    var base := S.Base(st);
    var cut := S.Cut(base.entries, st.now, trim);
    EntryBytesSuffix(base.entries, cut);
    EntryBytesSnoc(base.entries[cut..], S.Entry(S.NextId(base.lastId, st.now), entry));
  }

  lemma StreamHolds(streams: map<string, S.Stream>, key: string, after: S.Stream, size: nat)
    requires EntryBytes(after.entries) <= (if key in streams then EntryBytes(streams[key].entries) else 0) + size
    ensures Sum(StreamSizes(streams[key := after])) <= Sum(StreamSizes(streams)) + size
  {
    SumUpdate(StreamSizes(streams), key, EntryBytes(after.entries));
    assert StreamSizes(streams[key := after]) == StreamSizes(streams)[key := EntryBytes(after.entries)];
  }

  lemma FieldAdded(fields: map<string, int>, h: string, until: int)
    ensures |fields[h := until]| <= |fields| + 1
  {
    assert fields[h := until].Keys == fields.Keys + {h};
    assert |fields[h := until]| == |fields[h := until].Keys| && |fields| == |fields.Keys|;
  }

  lemma RefreshHolds(w: World, key: string)
    requires key in w.streams
    ensures StreamSizes(w.streams[key := S.Step(StreamAt(w, key), S.Refresh).stream]) == StreamSizes(w.streams)
  {
  }

  lemma ListHolds(m: map<string, map<string, int>>, c: string, h: string, until: int)
    ensures Sum(Listings(m[c := I.Fields(m, c)[h := until]])) <= Sum(Listings(m)) + 1
  {
    var fields := I.Fields(m, c)[h := until];
    FieldAdded(I.Fields(m, c), h, until);
    var before := Listings(m);
    SumUpdate(before, c, |fields|);
    assert Listings(m[c := fields]) == before[c := |fields|];
    assert c !in m ==> I.Fields(m, c) == map[];
  }

  lemma {:induction false} ListUnderHolds(m: map<string, map<string, int>>, cids: seq<string>, h: string, until: int)
    ensures Sum(Listings(I.ListUnder(m, cids, h, until))) <= Sum(Listings(m)) + |cids|
    decreases |cids|
  {
    if cids == [] {
      assert I.ListUnder(m, cids, h, until) == m;
    } else {
      var n := |cids| - 1;
      ListUnderHolds(m, cids[..n], h, until);
      I.ListUnderStep(m, cids[..n], cids[n], h, until);
      assert cids == cids[..n] + [cids[n]];
      ListHolds(I.ListUnder(m, cids[..n], h, until), cids[n], h, until);
    }
  }

  lemma RegisterLists(env: I.Env, st: I.Store, ad: I.Advertisement, stamp: int)
    ensures I.Register(env, st, ad, stamp).cidServices ==
            I.ListUnder(st.cidServices, ad.cids, env.serviceHash(ad.service), st.now + I.DEFAULT_TTL)
  {
  }

  lemma ListedHolds(m: map<string, map<string, int>>, cids: seq<string>, h: string, until: int,
                    after: map<string, map<string, int>>)
    requires after == I.ListUnder(m, cids, h, until)
    ensures Sum(Listings(after)) <= Sum(Listings(m)) + |cids|
  {
    ListUnderHolds(m, cids, h, until);
  }

  lemma RegisterHolds(env: I.Env, st: I.Store, ad: I.Advertisement, stamp: int)
    ensures Sum(Listings(I.Register(env, st, ad, stamp).cidServices)) <= Sum(Listings(st.cidServices)) + |ad.cids|
  {
    RegisterLists(env, st, ad, stamp);
    ListedHolds(st.cidServices, ad.cids, env.serviceHash(ad.service), st.now + I.DEFAULT_TTL,
                I.Register(env, st, ad, stamp).cidServices);
  }

  lemma ValueApplied(env: Env, w: World, req: Request, d: Details)
    requires req.message.CreateValueRequest?
    ensures Held(Apply(env, w, req, d)) <= Held(w) + |req.message.value|
  {
    CreateHolds(env.values, w.values, d.choice, req.message.value, d.ttl);
  }

  lemma StreamApplied(env: Env, w: World, req: Request, d: Details)
    requires req.message.CreateStreamValueRequest?
    ensures Held(Apply(env, w, req, d)) <= Held(w) + STREAM_BYTE_PRICE * |req.message.entry|
  {
    var entry := req.message.entry;
    var after := S.Step(StreamAt(w, d.parent), S.Add(entry, d.trim)).stream;
    WriteHolds(StreamAt(w, d.parent), entry, d.trim);
    StreamHolds(w.streams, d.parent, after, |entry|);
  }

  lemma RegistrationApplied(env: Env, w: World, req: Request, d: Details)
    requires req.message.RegisterInstanceRequest?
    ensures Held(Apply(env, w, req, d)) <= Held(w) + |req.message.cids|
  {
    RegisterHolds(env.index, w.index, d.ad.(cids := req.message.cids), d.stamp);
  }

  /** Handling a request adds at most its units to what the stores hold. */
  lemma ApplyHolds(env: Env, w: World, req: Request, d: Details)
    ensures Held(Apply(env, w, req, d)) <= Held(w) + Units(req)
  {
    match req.message {
      case CreateValueRequest(_) => ValueApplied(env, w, req, d);
      case ProlongValueRequest(_) => SetExpiryHolds(w.values, d.name, d.duration);
      case CreateStreamValueRequest(_) => StreamApplied(env, w, req, d);
      case RegisterInstanceRequest(_) => RegistrationApplied(env, w, req, d);
      case OtherRequest =>
    }
  }

  /** New bytes do count: the bound is attained by a value that was not there, and by an entry
      whose stream is there and loses none. */
  lemma NewValueHolds(env: Env, w: World, req: Request, d: Details)
    requires req.message.CreateValueRequest?
    requires var cid := V.CalculateCid(env.values, d.choice, req.message.value);
             cid.Ok? && V.PREFIX + cid.value !in w.values.values
    ensures Held(Apply(env, w, req, d)) == Held(w) + Units(req)
  {
    var key := V.PREFIX + V.CalculateCid(env.values, d.choice, req.message.value).value;
    var value := req.message.value;
    SumUpdate(ValueSizes(w.values.values), key, |value|);
    assert ValueSizes(Apply(env, w, req, d).values.values) == ValueSizes(w.values.values)[key := |value|];
  }

  lemma NewEntryHolds(env: Env, w: World, req: Request, d: Details)
    requires req.message.CreateStreamValueRequest? && d.parent in w.streams && d.trim == S.Partial(0)
    requires S.Exists(StreamAt(w, d.parent)) && !S.Refused(StreamAt(w, d.parent))
    ensures Held(Apply(env, w, req, d)) == Held(w) + Units(req)
  {
    var st, entry := StreamAt(w, d.parent), req.message.entry;
    var after := S.Append(st, entry, d.trim).stream;
    EntryBytesSnoc(st.stream.entries, S.Entry(S.NextId(st.stream.lastId, st.now), entry));
    assert st.stream.entries[0..] == st.stream.entries;
    assert EntryBytes(after.entries) == EntryBytes(st.stream.entries) + |entry|;
    SumUpdate(StreamSizes(w.streams), d.parent, EntryBytes(after.entries));
    assert StreamSizes(w.streams[d.parent := after]) == StreamSizes(w.streams)[d.parent := EntryBytes(after.entries)];
  }

  ghost predicate Accounted(w: World) {
    L.Balanced(w.books) && Held(w) <= w.books.stored
  }

  lemma HandleAccounted(env: Env, w: World, i: nat, d: Details)
    requires Accounted(w)
    ensures Held(Step(env, w, Handle(i, d))) <= Step(env, w, Handle(i, d)).books.stored
  {
    if i < |w.books.inFlight| {
      var req := w.books.inFlight[i];
      assert req in w.books.inFlight;
      var after := w.(books := L.Step(env.hash, w.books, L.Finish(i, true)));
      if WithinLimits(req) {
        ApplyHolds(env, after, req, d);
        StepBooks(env, w, Handle(i, d));
      }
    }
  }

  ghost predicate WellFormed(events: seq<Event>) {
    L.WellFormed(Entries(events))
  }

  lemma BookKeepsStored(hash: (string, string) -> string, w: L.World, e: L.Event)
    requires e.Finish? ==> !e.handled
    ensures L.Step(hash, w, e).stored == w.stored
  {
  }

  lemma WellFormedBefore(events: seq<Event>)
    requires WellFormed(events) && events != []
    ensures WellFormed(events[..|events| - 1])
  {
    var init := Entries(events[..|events| - 1]);
    assert forall e :: e in init ==> e in Entries(events);
  }

  lemma StepHeld(env: Env, w: World, e: Event)
    requires Accounted(w)
    ensures Held(Step(env, w, e)) <= Step(env, w, e).books.stored
  {
    match e {
      case Passes(_) =>
      case Refresh(key) =>
        if key in w.streams {
          RefreshHolds(w, key);
        }
      case Book(_) => BookKeepsStored(env.hash, w.books, Entry(e));
      case Handle(i, d) => HandleAccounted(env, w, i, d);
    }
  }

  lemma StartHeld(salt: string, now: int)
    ensures Held(Start(salt, now)) == 0
  {
    assert ValueSizes(map[]) == map[] && StreamSizes(map[]) == map[] && Listings(map[]) == map[];
  }

  lemma {:induction false} RunAccounted(env: Env, salt: string, now: int, events: seq<Event>)
    requires WellFormed(events)
    ensures Accounted(Run(env, salt, now, events))
  {
    BooksRun(env, salt, now, events);
    L.RunBalanced(env.hash, L.Start(salt), Entries(events));
    if events == [] {
      StartHeld(salt, now);
    } else {
      var n := |events| - 1;
      WellFormedBefore(events);
      RunAccounted(env, salt, now, events[..n]);
      StepHeld(env, Run(env, salt, now, events[..n]), events[n]);
    }
  }

  /** Everything the stores hold is paid for: over every interleaving of redemptions, charges,
      handlers, restarts and time, all value bytes, stream bytes and listings in the stores
      together, at their prices, are at most the quantities of the quota tokens redeemed, each
      counted once for each salt. */
  lemma EverythingHeldIsPaidFor(env: Env, salt: string, now: int, events: seq<Event>)
    requires L.Injective(env.hash) && WellFormed(events)
    ensures Held(Run(env, salt, now, events)) <= L.FirstQuantities(salt, Entries(events))
  {
    RunAccounted(env, salt, now, events);
    BooksRun(env, salt, now, events);
    L.EverythingStoredIsPaidFor(env.hash, salt, Entries(events));
  }
}

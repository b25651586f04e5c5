/** Values and their prolongs together: how long what internal/api/handler.go created can be
    read, while other values are created and prolongs of any value overlap in any way. */
module ValueLifetimes {
  import opened Common
  import opened Cids
  import V = Values
  import P = Prolonging

  /** The prolongs in progress on one key and how many have written since it was created. */
  datatype Progress = Progress(open: map<nat, P.Progress>, writes: nat)

  const NO_PROGRESS := Progress(map[], 0)

  datatype World = World(store: V.Store, prolongs: map<string, Progress>)

  datatype Event =
    | Creates(choice: V.CodecChoice, value: Bytes, ttl: int)
    | Prolongs(key: string, command: P.Event)   // one command of one prolong of a key
    | Passes(millis: nat)

  function ProgressOf(w: World, key: string): Progress {
    if key in w.prolongs then w.prolongs[key] else NO_PROGRESS
  }

  /** One value as its prolongs see it. */
  function View(w: World, key: string): P.World {
    var p := ProgressOf(w, key);
    P.World(w.store.now, V.Remaining(w.store, key), p.open, p.writes)
  }

  /** Refused by validation, or no command of a prolong. */
  predicate Ignored(command: P.Event) {
    command.Advance? || (command.Begin? && !P.ValidTtl(command.ttl))
  }

  function Step(env: V.Env, w: World, e: Event): World {
    match e
    case Creates(choice, value, ttl) =>
      (match V.Create(env, w.store, choice, value, ttl)
       case (_, Err(_)) => w
       case (store, Ok(key)) => World(store, w.prolongs[key := ProgressOf(w, key).(writes := 0)]))
    case Passes(millis) => w.(store := w.store.(now := w.store.now + millis))
    case Prolongs(key, command) =>
      if Ignored(command) then w
      else
        var after := P.Step(View(w, key), command);
        World(V.WithExpiry(w.store, key, after.expiry), w.prolongs[key := Progress(after.open, after.writes)])
  }

  function Run(env: V.Env, w: World, events: seq<Event>): World {
    if events == [] then w
    else Step(env, Run(env, w, events[..|events| - 1]), events[|events| - 1])
  }

  lemma RunMore(env: V.Env, w: World, events: seq<Event>, e: Event)
    ensures Run(env, w, events + [e]) == Step(env, Run(env, w, events), e)
  {
    assert (events + [e])[..|events|] == events;
  }

  // ---------- What one value sees of a run ----------

  /** The event as the value under `key` sees it. */
  function Seen(key: string, e: Event): P.Event {
    match e
    case Creates(_, _, _) => P.Advance(0)
    case Passes(millis) => P.Advance(millis)
    case Prolongs(k, command) => if k == key && !Ignored(command) then command else P.Advance(0)
  }

  function AllSeen(key: string, events: seq<Event>): seq<P.Event> {
    seq(|events|, i requires 0 <= i < |events| => Seen(key, events[i]))
  }

  /** The event does not create the value under `key` again. */
  predicate LeavesAlone(env: V.Env, key: string, e: Event) {
    e.Creates? ==>
      var cid := V.CalculateCid(env, e.choice, e.value);
      cid.Ok? ==> V.PREFIX + cid.value != key
  }

  lemma StepSeen(env: V.Env, w: World, key: string, e: Event)
    requires LeavesAlone(env, key, e)
    ensures View(Step(env, w, e), key) == P.Step(View(w, key), Seen(key, e))
  {
  }

  lemma {:induction false} RunSeen(env: V.Env, w: World, key: string, events: seq<Event>)
    requires forall e :: e in events ==> LeavesAlone(env, key, e)
    ensures View(Run(env, w, events), key) == P.Run(View(w, key), AllSeen(key, events))
  {
    if events != [] {
      var n := |events| - 1;
      RunSeen(env, w, key, events[..n]);
      assert events[n] in events;
      StepSeen(env, Run(env, w, events[..n]), key, events[n]);
      assert AllSeen(key, events)[..n] == AllSeen(key, events[..n]);
      assert AllSeen(key, events)[n] == Seen(key, events[n]);
    }
  }

  // ---------- What a run does to the store ----------

  /** Every run is, for the store, a run of creates, expiry changes and time. */
  lemma {:induction false} RunOfStore(env: V.Env, w: World, events: seq<Event>)
    returns (stored: seq<V.Event>)
    ensures Run(env, w, events).store == V.Run(env, w.store, stored)
  {
    if events == [] {
      stored := [];
    } else {
      var n := |events| - 1;
      var init := RunOfStore(env, w, events[..n]);
      var before := Run(env, w, events[..n]);
      var last := StepOfStore(env, before, events[n]);
      stored := init + [last];
      assert stored[..|stored| - 1] == init;
    }
  }

  lemma StepOfStore(env: V.Env, w: World, e: Event) returns (stored: V.Event)
    ensures Step(env, w, e).store == V.Step(env, w.store, stored)
  {
    match e {
      case Creates(choice, value, ttl) => stored := V.Creates(choice, value, ttl);
      case Passes(millis) => stored := V.Passes(millis);
      case Prolongs(key, command) =>
        var view := View(w, key);
        if command.Write? && command.id in view.open && view.open[command.id].seen.Some? {
          var p := view.open[command.id];
          stored := V.Expires(key, P.NewTtl(p.ttl, p.seen.value));
        } else {
          stored := V.Passes(0);
          SameExpiry(w.store, key);
        }
    }
  }

  lemma SameExpiry(st: V.Store, key: string)
    ensures V.WithExpiry(st, key, V.Remaining(st, key)) == st
  {
    if key in st.values {
      assert st.values[key := st.values[key]] == st.values;
    } else {
      assert st.values - {key} == st.values;
    }
  }

  // ---------- How long a value lives ----------

  /** What the prolong would set by itself, were it to write now. */
  function Sets(now: int, p: P.Progress): int
    requires p.seen.Some?
  {
    now + 1000 * P.FormatSec(p.ttl + p.seen.value)
  }

  /** No prolong that has read would set an expiry before `until`. */
  ghost predicate Harmless(w: P.World, until: int) {
    forall id :: id in w.open && w.open[id].seen.Some? ==> Sets(w.now, w.open[id]) >= until
  }

  ghost predicate SafeUntil(w: P.World, until: int) {
    w.expiry.Some? && w.expiry.value >= until && Harmless(w, until)
  }

  lemma ReadSafe(w: P.World, years: nat, id: nat, until: int)
    requires SafeUntil(w, until) && P.Bounded(w, years) && w.now <= until
    requires id in w.open && w.open[id].seen.None?
    ensures SafeUntil(P.Step(w, P.Read(id)), until)
  {
    P.WholeSecondsAdd(w.open[id].ttl, P.TtlSeconds(w.expiry.value - w.now));
  }

  lemma StepSafe(w: P.World, years: nat, e: P.Event, until: int)
    requires SafeUntil(w, until) && P.Bounded(w, years) && w.now <= until
    requires years + P.Step(w, e).writes <= 292
    ensures SafeUntil(P.Step(w, e), until)
  {
    match e {
      case Begin(_, _) =>
      case Read(id) =>
        if id in w.open && w.open[id].seen.None? {
          ReadSafe(w, years, id, until);
        }
      case Write(id) =>
        if id in w.open && w.open[id].seen.Some? {
          P.SumFits(years, w.writes, w.open[id].ttl, w.open[id].seen.value);
        }
      case Advance(_) =>
    }
  }

  lemma {:induction false} RunSafe(w: P.World, years: nat, events: seq<P.Event>, until: int)
    requires SafeUntil(w, until) && P.Bounded(w, years)
    requires P.Run(w, events).now <= until && years + P.Run(w, events).writes <= 292
    ensures SafeUntil(P.Run(w, events), until)
  {
    if events != [] {
      var init := events[..|events| - 1];
      var before := P.Run(w, init);
      assert before.now <= P.Run(w, events).now && before.writes <= P.Run(w, events).writes;
      RunSafe(w, years, init, until);
      P.RunBounded(w, years, init);
      StepSafe(before, years, events[|events| - 1], until);
    }
  }

  /** The prolong that is not harmless writes, and then it is `until`. */
  function WriteAndWait(key: string, id: nat, millis: nat): seq<Event> {
    [Prolongs(key, P.Write(id)), Passes(millis)]
  }

  lemma RunWriteAndWait(env: V.Env, w: World, key: string, id: nat, millis: nat)
    ensures Run(env, w, WriteAndWait(key, id, millis)) ==
            Step(env, Step(env, w, Prolongs(key, P.Write(id))), Passes(millis))
  {
    var write := Prolongs(key, P.Write(id));
    RunMore(env, w, [], write);
    RunMore(env, w, [write], Passes(millis));
    assert [] + [write] == [write] && [write] + [Passes(millis)] == WriteAndWait(key, id, millis);
  }

  lemma HarmDone(env: V.Env, w: World, key: string, years: nat, id: nat, until: int)
    requires P.Bounded(View(w, key), years) && years + View(w, key).writes < 292
    requires V.Readable(w.store, key) && w.store.now <= until
    requires var open := View(w, key).open;
             id in open && open[id].seen.Some? && Sets(w.store.now, open[id]) < until
    ensures var after := Run(env, w, WriteAndWait(key, id, until - w.store.now));
            && after.store.now == until && !V.Readable(after.store, key)
            && View(after, key).writes == View(w, key).writes + 1
  {
    var view := View(w, key);
    RunWriteAndWait(env, w, key, id, until - w.store.now);
    P.SumFits(years, view.writes, view.open[id].ttl, view.open[id].seen.value);
    StepSeen(env, w, key, Prolongs(key, P.Write(id)));
  }

  /** The run neither creates the value again nor lasts longer than `until`, and few enough
      prolongs write in it for int64. */
  ghost predicate Within(env: V.Env, w: World, key: string, until: int, years: nat, events: seq<Event>) {
    && (forall e :: e in events ==> LeavesAlone(env, key, e))
    && Run(env, w, events).store.now <= until
    && years + ProgressOf(Run(env, w, events), key).writes <= 292
  }

  /** A value can be read up to its expiry, however prolongs overlap from now on, exactly when no
      prolong that has already read would set an earlier one. */
  lemma KeptUntilExpiryIff(env: V.Env, w: World, key: string, years: nat)
    requires V.Readable(w.store, key) && P.Bounded(View(w, key), years) && years + View(w, key).writes < 292
    ensures var until := w.store.values[key].expiry;
            (forall events :: Within(env, w, key, until, years, events) ==>
               V.Readable(Run(env, w, events).store, key))
            <==> Harmless(View(w, key), until)
  {
    var until := w.store.values[key].expiry;
    var view := View(w, key);
    if Harmless(view, until) {
      forall events | Within(env, w, key, until, years, events)
        ensures V.Readable(Run(env, w, events).store, key)
      {
        RunSeen(env, w, key, events);
        RunSafe(view, years, AllSeen(key, events), until);
      }
    } else {
      var id :| id in view.open && view.open[id].seen.Some? && Sets(w.store.now, view.open[id]) < until;
      HarmDone(env, w, key, years, id, until);
      assert Within(env, w, key, until, years, WriteAndWait(key, id, until - w.store.now));
    }
  }

  /** The world right after a create. */
  function Created(env: V.Env, w: World, choice: V.CodecChoice, value: Bytes, ttl: int): World {
    Step(env, w, Creates(choice, value, ttl))
  }

  /** A created value: its key, its bytes and its requested lifetime in milliseconds. */
  ghost predicate CreatesKey(env: V.Env, choice: V.CodecChoice, value: Bytes, ttl: int, key: string) {
    && P.ValidTtl(ttl) && V.CalculateCid(env, choice, value).Ok?
    && key == V.PREFIX + V.CalculateCid(env, choice, value).value
  }

  /** Every prolong of the key under way that has read would by itself set at least the requested
      lifetime. */
  ghost predicate NoneCutsShort(w: World, key: string, ttl: int) {
    var open := ProgressOf(w, key).open;
    forall id :: id in open && open[id].seen.Some? ==>
      1000 * P.FormatSec(open[id].ttl + open[id].seen.value) >= ttl / 1_000_000
  }

  lemma CreatedView(env: V.Env, w: World, choice: V.CodecChoice, value: Bytes, ttl: int, key: string)
    requires CreatesKey(env, choice, value, ttl, key)
    ensures var now := w.store.now;
            View(Created(env, w, choice, value, ttl), key) ==
            P.World(now, Some(now + ttl / 1_000_000), ProgressOf(w, key).open, 0)
    ensures V.Readable(Created(env, w, choice, value, ttl).store, key)
  {
  }

  /** Reading under any accepted spelling of a created value's CID, after any run. */
  lemma ReadIffReadable(env: V.Env, w: World, choice: V.CodecChoice, value: Bytes, ttl: int, key: string,
                        events: seq<Event>, spelling: string)
    requires Lawful(env.codec) && V.CollisionFree(env) && V.ContentAddressed(env, w.store)
    requires CreatesKey(env, choice, value, ttl, key)
    requires NormalizeCidToV1(env.codec, spelling) == V.CalculateCid(env, choice, value)
    ensures var after := Run(env, Created(env, w, choice, value, ttl), events);
            V.Get(env, after.store, V.PREFIX + spelling) == Ok(value) <==> V.Readable(after.store, key)
  {
    var stored := RunOfStore(env, Created(env, w, choice, value, ttl), events);
    V.GetReturnsCreated(env, w.store, choice, value, ttl, stored, spelling);
  }

  /** What is created, for the first time or again, can be read under any accepted spelling of its
      CID until its requested lifetime is over, whatever else is created and however prolongs
      overlap, exactly when no prolong of it under way has read a lifetime that, together with
      what it asks for, is shorter than the requested one. */
  lemma CreatedIsReadUntilTtlIff(env: V.Env, w: World, choice: V.CodecChoice, value: Bytes, ttl: int,
                                 key: string, years: nat, spelling: string)
    requires Lawful(env.codec) && V.CollisionFree(env) && V.ContentAddressed(env, w.store)
    requires CreatesKey(env, choice, value, ttl, key)
    requires NormalizeCidToV1(env.codec, spelling) == V.CalculateCid(env, choice, value)
    requires P.Bounded(View(Created(env, w, choice, value, ttl), key), years) && years < 292
    ensures var start := Created(env, w, choice, value, ttl);
            (forall events :: Within(env, start, key, w.store.now + ttl / 1_000_000, years, events) ==>
               V.Get(env, Run(env, start, events).store, V.PREFIX + spelling) == Ok(value))
            <==> NoneCutsShort(w, key, ttl)
  {
    var start := Created(env, w, choice, value, ttl);
    CreatedView(env, w, choice, value, ttl, key);
    KeptUntilExpiryIff(env, start, key, years);
    assert Harmless(View(start, key), w.store.now + ttl / 1_000_000) <==> NoneCutsShort(w, key, ttl);
    forall events
      ensures V.Get(env, Run(env, start, events).store, V.PREFIX + spelling) == Ok(value) <==>
              V.Readable(Run(env, start, events).store, key)
    {
      ReadIffReadable(env, w, choice, value, ttl, key, events, spelling);
    }
  }

  /** So a value of which no prolong under way has read yet is kept for its requested lifetime
      through up to 291 prolongs. */
  lemma CreatedIsReadUntilTtl(env: V.Env, w: World, choice: V.CodecChoice, value: Bytes, ttl: int,
                              key: string, events: seq<Event>, spelling: string)
    requires Lawful(env.codec) && V.CollisionFree(env) && V.ContentAddressed(env, w.store)
    requires CreatesKey(env, choice, value, ttl, key)
    requires NormalizeCidToV1(env.codec, spelling) == V.CalculateCid(env, choice, value)
    requires var open := ProgressOf(w, key).open;
             forall id :: id in open ==> P.ValidTtl(open[id].ttl) && open[id].seen.None?
    requires Within(env, Created(env, w, choice, value, ttl), key, w.store.now + ttl / 1_000_000, 1, events)
    ensures V.Get(env, Run(env, Created(env, w, choice, value, ttl), events).store, V.PREFIX + spelling) == Ok(value)
  {
    CreatedView(env, w, choice, value, ttl, key);
    CreatedIsReadUntilTtlIff(env, w, choice, value, ttl, key, 1, spelling);
  }

  /** A value created for a second, a prolong of it by a second that has read that second, the
      value created again for `ttl`, and then the write of the prolong. */
  function StaleProlong(key: string, choice: V.CodecChoice, value: Bytes, ttl: int): seq<Event> {
    [Creates(choice, value, P.SECOND), Prolongs(key, P.Begin(0, P.SECOND)), Prolongs(key, P.Read(0))]
    + [Creates(choice, value, ttl), Prolongs(key, P.Write(0))]
  }

  /** The second create is cut to two seconds, whatever lifetime was requested. */
  lemma StaleProlongCutsShort(env: V.Env, now: int, choice: V.CodecChoice, value: Bytes, ttl: int, key: string)
    requires CreatesKey(env, choice, value, ttl, key)
    ensures var after := Run(env, World(V.Store(now, map[]), map[]), StaleProlong(key, choice, value, ttl));
            after.store.now == now && V.Remaining(after.store, key) == Some(now + 2000)
  {
    var w0 := World(V.Store(now, map[]), map[]);
    var a, b, c := Creates(choice, value, P.SECOND), Prolongs(key, P.Begin(0, P.SECOND)), Prolongs(key, P.Read(0));
    var d, e := Creates(choice, value, ttl), Prolongs(key, P.Write(0));
    RunMore(env, w0, [], a);
    RunMore(env, w0, [a], b);
    RunMore(env, w0, [a] + [b], c);
    RunMore(env, w0, [a] + [b] + [c], d);
    RunMore(env, w0, [a] + [b] + [c] + [d], e);
    assert [] + [a] == [a] && [a] + [b] + [c] + [d] + [e] == StaleProlong(key, choice, value, ttl);
    StaleSteps(env, w0, choice, value, ttl, key);
  }

  lemma StaleSteps(env: V.Env, w: World, choice: V.CodecChoice, value: Bytes, ttl: int, key: string)
    requires CreatesKey(env, choice, value, ttl, key) && ProgressOf(w, key).open == map[]
    ensures var w1 := Step(env, w, Creates(choice, value, P.SECOND));
            var w3 := Step(env, Step(env, w1, Prolongs(key, P.Begin(0, P.SECOND))), Prolongs(key, P.Read(0)));
            var w5 := Step(env, Step(env, w3, Creates(choice, value, ttl)), Prolongs(key, P.Write(0)));
            w5.store.now == w.store.now && V.Remaining(w5.store, key) == Some(w.store.now + 2000)
  {
    CreatedView(env, w, choice, value, P.SECOND, key);
    var w1 := Step(env, w, Creates(choice, value, P.SECOND));
    StepSeen(env, w1, key, Prolongs(key, P.Begin(0, P.SECOND)));
    var w2 := Step(env, w1, Prolongs(key, P.Begin(0, P.SECOND)));
    StepSeen(env, w2, key, Prolongs(key, P.Read(0)));
    var w3 := Step(env, w2, Prolongs(key, P.Read(0)));
    assert ProgressOf(w3, key).open[0] == P.Progress(P.SECOND, Some(P.SECOND));
    CreatedView(env, w3, choice, value, ttl, key);
    var w4 := Step(env, w3, Creates(choice, value, ttl));
    StepSeen(env, w4, key, Prolongs(key, P.Write(0)));
  }
}

/** When a prolong of internal/api/handler.go counts in full.  What a prolong writes depends on
    the TTL it read, so other writes and the clock between its read and its write show in the
    result: other writes are lost, and time that passes is given away. */
module ProlongOverlap {
  import opened Common
  import opened Prolonging

  /** The event is a write that takes place. */
  predicate Writes(w: World, e: Event) {
    e.Write? && e.id in w.open && w.open[e.id].seen.Some?
  }

  predicate Reads(w: World, e: Event) {
    e.Read? && e.id in w.open && w.open[e.id].seen.None?
  }

  /** The whole seconds a write was asked to add. */
  function Asked(w: World, e: Event): int {
    if Writes(w, e) then w.open[e.id].ttl / SECOND else 0
  }

  /** How far the expiry a prolong counts from lies past the one it finds when it writes. */
  function Drift(w: World, id: nat): int
    requires Writes(w, Write(id)) && w.expiry.Some?
  {
    w.now + 1000 * (w.open[id].seen.value / SECOND) - w.expiry.value
  }

  /** One write: the expiry moves by the seconds asked for and by the drift, so the prolong
      counts in full exactly when the TTL it read is still the one the value has. */
  lemma WriteCountsIff(w: World, years: nat, id: nat)
    requires Bounded(w, years) && years + w.writes < 292 && Live(w.expiry, w.now)
    requires Writes(w, Write(id)) && w.open[id].seen.value >= 0 && w.open[id].seen.value % SECOND == 0
    ensures var full := w.expiry.value + 1000 * Asked(w, Write(id));
            && Step(w, Write(id)).expiry == Some(full + Drift(w, id))
            && (Step(w, Write(id)).expiry == Some(full) <==>
                w.now + 1000 * (w.open[id].seen.value / SECOND) == w.expiry.value)
  {
    var p := w.open[id];
    SumFits(years, w.writes, p.ttl, p.seen.value);
    WholeSecondsAdd(p.ttl, p.seen.value / SECOND);
  }

  // ---------- Whole runs ----------

  /** The clock and the seconds added so far when a prolong read. */
  datatype Mark = Mark(now: int, added: int)

  /** A world, all seconds asked for by the prolongs that have written, and the marks of those
      that have read. */
  datatype History = History(world: World, added: int, marks: map<nat, Mark>)

  function Track(h: History, e: Event): History {
    History(
      Step(h.world, e),
      h.added + Asked(h.world, e),
      if Reads(h.world, e) then h.marks[e.id := Mark(h.world.now, h.added)] else h.marks)
  }

  /** `hs` goes through the events from an untouched value. */
  ghost predicate IsTrace(hs: seq<History>, events: seq<Event>) {
    && |hs| == |events| + 1
    && hs[0].added == 0 && hs[0].marks == map[]
    && forall i :: 0 <= i < |events| ==> hs[i + 1] == Track(hs[i], events[i])
  }

  /** Every run has its trace. */
  function Trace(w: World, events: seq<Event>): (hs: seq<History>)
    ensures IsTrace(hs, events) && hs[0].world == w
    decreases |events|
  {
    if events == [] then [History(w, 0, map[])]
    else
      var n := |events| - 1;
      var init := Trace(w, events[..n]);
      init + [Track(init[n], events[n])]
  }

  lemma {:induction false} TraceIsRun(hs: seq<History>, events: seq<Event>, n: nat)
    requires IsTrace(hs, events) && n <= |events|
    ensures hs[n].world == Run(hs[0].world, events[..n])
  {
    if n > 0 {
      TraceIsRun(hs, events, n - 1);
      assert hs[n - 1 + 1] == Track(hs[n - 1], events[n - 1]);
      RunOneMore(hs[0].world, events, n - 1);
    }
  }

  lemma RunOneMore(w: World, events: seq<Event>, n: nat)
    requires n < |events|
    ensures Run(w, events[..n + 1]) == Step(Run(w, events[..n]), events[n])
  {
    assert events[..n + 1][..n] == events[..n];
  }

  /** A trace of a value that stays alive, with `years` years left at first and few enough
      prolongs for int64. */
  ghost predicate Sound(hs: seq<History>, events: seq<Event>, years: nat) {
    && IsTrace(hs, events) && Fresh(hs[0].world, years)
    && forall i :: 0 <= i < |hs| ==>
         Live(hs[i].world.expiry, hs[i].world.now) && years + hs[i].world.writes <= 292
  }

  lemma {:induction false} SoundBounded(hs: seq<History>, events: seq<Event>, years: nat, n: nat)
    requires Sound(hs, events, years) && n < |hs|
    ensures Bounded(hs[n].world, years)
    ensures n < |events| && Writes(hs[n].world, events[n]) ==> years + hs[n].world.writes < 292
  {
    if n > 0 {
      SoundBounded(hs, events, years, n - 1);
      assert hs[n - 1 + 1] == Track(hs[n - 1], events[n - 1]);
      StepBounded(hs[n - 1].world, years, events[n - 1]);
    }
    if n < |events| {
      assert hs[n + 1] == Track(hs[n], events[n]);
      assert years + hs[n + 1].world.writes <= 292;
    }
  }

  /** The expiry is the original one and all the seconds written. */
  predicate Exact(original: int, h: History) {
    h.world.expiry == Some(original + 1000 * h.added)
  }

  /** What Redis' TTL rounds the remaining milliseconds up, or down, by. */
  function Rounding(remaining: nat): int {
    1000 * TtlSeconds(remaining) - remaining
  }

  /** What an exact expiry leaves at the time of a mark. */
  function Left(original: int, m: Mark): nat {
    var left := original + 1000 * m.added - m.now;
    if left < 0 then 0 else left
  }

  /** If the event writes: since that prolong read, as much time has passed as others have
      added, up to what the TTL it read was rounded by. */
  predicate Compensated(original: int, h: History, e: Event) {
    Writes(h.world, e) && e.id in h.marks ==>
      var m := h.marks[e.id];
      h.world.now - m.now + Rounding(Left(original, m)) == 1000 * (h.added - m.added)
  }

  /** Every prolong that has read has a mark, and counts from an expiry that was exact then. */
  ghost predicate Marked(original: int, h: History) {
    forall id :: id in h.world.open && h.world.open[id].seen.Some? ==>
      && id in h.marks
      && original + 1000 * h.marks[id].added - h.marks[id].now >= 0
      && h.world.open[id].seen.value == TtlSeconds(Left(original, h.marks[id])) * SECOND
  }

  lemma StepMarked(original: int, h: History, e: Event)
    requires Marked(original, h) && Exact(original, h) && Live(h.world.expiry, h.world.now)
    ensures Marked(original, Track(h, e))
  {
  }

  lemma MarkedWrite(w: World, years: nat, original: int, added: int, m: Mark, id: nat)
    requires w.expiry == Some(original + 1000 * added) && Live(w.expiry, w.now)
    requires Bounded(w, years) && years + w.writes < 292
    requires Writes(w, Write(id)) && original + 1000 * m.added - m.now >= 0
    requires w.open[id].seen.value == TtlSeconds(Left(original, m)) * SECOND
    ensures Step(w, Write(id)).expiry == Some(original + 1000 * (added + Asked(w, Write(id)))) <==>
            w.now - m.now + Rounding(Left(original, m)) == 1000 * (added - m.added)
  {
    var t := TtlSeconds(Left(original, m));
    assert t * SECOND % SECOND == 0 && t * SECOND / SECOND == t;
    WriteCountsIff(w, years, id);
  }

  lemma OnlyWritesMoveExpiry(w: World, e: Event)
    requires !Writes(w, e)
    ensures Step(w, e).expiry == w.expiry && Asked(w, e) == 0
  {
  }

  lemma StepExactIff(original: int, h: History, years: nat, e: Event)
    requires Exact(original, h) && Live(h.world.expiry, h.world.now)
    requires Marked(original, h) && Bounded(h.world, years)
    requires Writes(h.world, e) ==> years + h.world.writes < 292
    ensures Exact(original, Track(h, e)) <==> Compensated(original, h, e)
  {
    if Writes(h.world, e) {
      MarkedWrite(h.world, years, original, h.added, h.marks[e.id], e.id);
    } else {
      OnlyWritesMoveExpiry(h.world, e);
    }
  }

  lemma {:induction false} PrefixExactIff(hs: seq<History>, events: seq<Event>, years: nat, n: nat)
    requires Sound(hs, events, years) && n < |hs|
    ensures var original := hs[0].world.expiry.value;
            && ((forall i :: 0 <= i <= n ==> Exact(original, hs[i])) <==>
                (forall i :: 0 <= i < n ==> Compensated(original, hs[i], events[i])))
            && ((forall i :: 0 <= i <= n ==> Exact(original, hs[i])) ==> Marked(original, hs[n]))
  {
    var original := hs[0].world.expiry.value;
    if n > 0 {
      PrefixExactIff(hs, events, years, n - 1);
      if forall i :: 0 <= i <= n - 1 ==> Exact(original, hs[i]) {
        SoundBounded(hs, events, years, n - 1);
        assert hs[n - 1 + 1] == Track(hs[n - 1], events[n - 1]);
        StepMarked(original, hs[n - 1], events[n - 1]);
        StepExactIff(original, hs[n - 1], years, events[n - 1]);
      }
    }
  }

  /** A run on a value that stays alive, with `years` years left at first and few enough prolongs
      for int64. */
  ghost predicate SoundRun(w: World, events: seq<Event>, years: nat) {
    Fresh(w, years) && StaysLive(w, events) && years + Run(w, events).writes <= 292
  }

  lemma {:induction false} WritesGrow(hs: seq<History>, events: seq<Event>, i: nat, j: nat)
    requires IsTrace(hs, events) && i <= j < |hs|
    ensures hs[i].world.writes <= hs[j].world.writes
    decreases j - i
  {
    if i < j {
      WritesGrow(hs, events, i, j - 1);
      assert hs[j - 1 + 1] == Track(hs[j - 1], events[j - 1]);
    }
  }

  /** Traces are about runs: each world of the trace is where the run has got to, and the trace of
      a sound run is sound. */
  lemma SoundTrace(w: World, events: seq<Event>, years: nat)
    requires SoundRun(w, events, years)
    ensures Sound(Trace(w, events), events, years)
    ensures forall n :: 0 <= n <= |events| ==> Trace(w, events)[n].world == Run(w, events[..n])
  {
    var hs := Trace(w, events);
    forall n | 0 <= n <= |events|
      ensures hs[n].world == Run(w, events[..n]) && hs[n].world.writes <= Run(w, events).writes
    {
      TraceIsRun(hs, events, n);
      TraceIsRun(hs, events, |events|);
      assert events[..|events|] == events;
      WritesGrow(hs, events, n, |events|);
    }
  }

  /** Every prolong counts in full, at every moment of a run, exactly when for each of them the
      time that passed between its read and its write is what other prolongs added meanwhile,
      up to the rounding of the TTL it read: so with neither time nor other writes in between,
      and otherwise only when the two make up for each other. */
  lemma AlwaysExactIff(w: World, events: seq<Event>, years: nat)
    requires Sound(Trace(w, events), events, years)
    ensures var hs := Trace(w, events);
            (forall n :: 0 <= n <= |events| ==> Exact(w.expiry.value, hs[n])) <==>
            (forall i :: 0 <= i < |events| ==> Compensated(w.expiry.value, hs[i], events[i]))
  {
    PrefixExactIff(Trace(w, events), events, years, |events|);
  }

  // ---------- Other writes, and time, each on their own ----------

  /** If the event writes, no other prolong has written since that prolong read. */
  predicate Alone(h: History, e: Event) {
    Writes(h.world, e) && e.id in h.marks ==> h.marks[e.id].added == h.added
  }

  /** If the event writes, no time has passed since that prolong read. */
  predicate Prompt(h: History, e: Event) {
    Writes(h.world, e) && e.id in h.marks ==> h.marks[e.id].now == h.world.now
  }

  /** The expiry a prolong counts from. */
  function Counted(seen: int, m: Mark): int {
    m.now + 1000 * (seen / SECOND)
  }

  /** On a whole-second clock, a prolong after whose read nothing was written counts from the
      present expiry. */
  ghost predicate Tied(h: History) {
    && h.world.expiry.Some? && h.world.now <= h.world.expiry.value
    && (h.world.expiry.value - h.world.now) % 1000 == 0
    && forall id :: id in h.world.open && h.world.open[id].seen.Some? ==>
         var seen := h.world.open[id].seen.value;
         && seen >= 0 && seen % SECOND == 0
         && id in h.marks && h.marks[id].added <= h.added && h.marks[id].now <= h.world.now
         && (h.marks[id].added == h.added ==> Counted(seen, h.marks[id]) == h.world.expiry.value)
  }

  /** At most the original expiry and all seconds written, now and at every read. */
  ghost predicate Under(original: int, h: History) {
    && h.world.expiry.Some? && h.world.expiry.value <= original + 1000 * h.added
    && forall id :: id in h.world.open && h.world.open[id].seen.Some? && id in h.marks ==>
         Counted(h.world.open[id].seen.value, h.marks[id]) <= original + 1000 * h.marks[id].added
  }

  /** At least that. */
  predicate Over(original: int, h: History) {
    h.world.expiry.Some? && h.world.expiry.value >= original + 1000 * h.added
  }

  predicate WholeSeconds(e: Event) {
    e.Advance? ==> e.millis % 1000 == 0
  }

  /** What a write leaves, in terms of the expiry it counts from. */
  lemma WriteFrom(h: History, years: nat, id: nat)
    requires Tied(h) && Bounded(h.world, years) && years + h.world.writes < 292
    requires Writes(h.world, Write(id))
    ensures Asked(h.world, Write(id)) >= 1
    ensures Step(h.world, Write(id)).expiry ==
            Some(Counted(h.world.open[id].seen.value, h.marks[id]) + (h.world.now - h.marks[id].now)
                 + 1000 * Asked(h.world, Write(id)))
  {
    WriteCountsIff(h.world, years, id);
  }

  lemma WriteTied(h: History, years: nat, id: nat)
    requires Tied(h) && Bounded(h.world, years) && years + h.world.writes < 292
    requires Writes(h.world, Write(id))
    ensures Tied(Track(h, Write(id)))
  {
    var p := h.world.open[id];
    WriteCountsIff(h.world, years, id);
    assert Step(h.world, Write(id)).expiry == Some(h.world.now + 1000 * (p.seen.value / SECOND + p.ttl / SECOND));
  }

  lemma ReadTied(h: History, e: Event)
    requires Tied(h) && Reads(h.world, e)
    ensures Tied(Track(h, e))
    ensures Counted(Step(h.world, e).open[e.id].seen.value, Mark(h.world.now, h.added)) == h.world.expiry.value
  {
    var t := TtlSeconds(h.world.expiry.value - h.world.now);
    assert 1000 * t == h.world.expiry.value - h.world.now;
    assert t * SECOND % SECOND == 0 && t * SECOND / SECOND == t;
  }

  lemma StepTied(h: History, years: nat, e: Event)
    requires Tied(h) && Bounded(h.world, years) && WholeSeconds(e)
    requires Writes(h.world, e) ==> years + h.world.writes < 292
    requires Live(Track(h, e).world.expiry, Track(h, e).world.now)
    ensures Tied(Track(h, e))
  {
    match e {
      case Begin(_, _) =>
      case Read(_) =>
        if Reads(h.world, e) {
          ReadTied(h, e);
        }
      case Write(id) =>
        if Writes(h.world, e) {
          WriteTied(h, years, id);
        }
      case Advance(_) =>
    }
  }

  lemma WriteUnder(original: int, h: History, years: nat, e: Event)
    requires Tied(h) && Under(original, h) && Bounded(h.world, years)
    requires Writes(h.world, e) && years + h.world.writes < 292 && Prompt(h, e)
    ensures Under(original, Track(h, e))
    ensures Exact(original, Track(h, e)) <==> Exact(original, h) && Alone(h, e)
  {
    WriteFrom(h, years, e.id);
  }

  lemma StepUnder(original: int, h: History, years: nat, e: Event)
    requires Tied(h) && Under(original, h) && Bounded(h.world, years)
    requires Writes(h.world, e) ==> years + h.world.writes < 292
    requires Prompt(h, e)
    ensures Under(original, Track(h, e))
    ensures Exact(original, Track(h, e)) <==> Exact(original, h) && Alone(h, e)
  {
    if Writes(h.world, e) {
      WriteUnder(original, h, years, e);
    } else {
      OnlyWritesMoveExpiry(h.world, e);
      if Reads(h.world, e) {
        ReadTied(h, e);
      }
    }
  }

  lemma StepOver(original: int, h: History, years: nat, e: Event)
    requires Tied(h) && Over(original, h) && Bounded(h.world, years)
    requires Writes(h.world, e) ==> years + h.world.writes < 292
    requires Alone(h, e)
    ensures Over(original, Track(h, e))
    ensures Exact(original, Track(h, e)) <==> Exact(original, h) && Prompt(h, e)
  {
    if Writes(h.world, e) {
      WriteFrom(h, years, e.id);
    } else {
      OnlyWritesMoveExpiry(h.world, e);
    }
  }

  /** A sound trace on a whole-second clock. */
  ghost predicate WholeTrace(hs: seq<History>, events: seq<Event>, years: nat) {
    && Sound(hs, events, years)
    && (hs[0].world.expiry.value - hs[0].world.now) % 1000 == 0
    && forall i :: 0 <= i < |events| ==> WholeSeconds(events[i])
  }

  lemma {:induction false} TraceTied(hs: seq<History>, events: seq<Event>, years: nat, n: nat)
    requires WholeTrace(hs, events, years) && n < |hs|
    ensures Tied(hs[n])
  {
    if n > 0 {
      TraceTied(hs, events, years, n - 1);
      SoundBounded(hs, events, years, n - 1);
      assert hs[n - 1 + 1] == Track(hs[n - 1], events[n - 1]);
      StepTied(hs[n - 1], years, events[n - 1]);
    }
  }

  lemma {:induction false} PrefixUnder(hs: seq<History>, events: seq<Event>, years: nat, n: nat)
    requires WholeTrace(hs, events, years) && n < |hs|
    requires forall i :: 0 <= i < n ==> Prompt(hs[i], events[i])
    ensures var original := hs[0].world.expiry.value;
            Under(original, hs[n])
            && (Exact(original, hs[n]) <==> forall i :: 0 <= i < n ==> Alone(hs[i], events[i]))
  {
    if n > 0 {
      PrefixUnder(hs, events, years, n - 1);
      TraceTied(hs, events, years, n - 1);
      SoundBounded(hs, events, years, n - 1);
      assert hs[n - 1 + 1] == Track(hs[n - 1], events[n - 1]);
      StepUnder(hs[0].world.expiry.value, hs[n - 1], years, events[n - 1]);
    }
  }

  /** On a whole-second clock, when no time passes between a prolong's read and its write, the final expiry is never more
      than the original one and all seconds written, and is exactly that if and only if no
      prolong wrote between another's read and write: overlapping prolongs lose updates. */
  lemma PromptExactIff(w: World, events: seq<Event>, years: nat)
    requires WholeTrace(Trace(w, events), events, years)
    requires forall i :: 0 <= i < |events| ==> Prompt(Trace(w, events)[i], events[i])
    ensures var hs := Trace(w, events);
            && hs[|events|].world.expiry.value <= w.expiry.value + 1000 * hs[|events|].added
            && (Exact(w.expiry.value, hs[|events|]) <==> forall i :: 0 <= i < |events| ==> Alone(hs[i], events[i]))
  {
    PrefixUnder(Trace(w, events), events, years, |events|);
  }

  lemma {:induction false} PrefixOver(hs: seq<History>, events: seq<Event>, years: nat, n: nat)
    requires WholeTrace(hs, events, years) && n < |hs|
    requires forall i :: 0 <= i < n ==> Alone(hs[i], events[i])
    ensures var original := hs[0].world.expiry.value;
            Over(original, hs[n])
            && (Exact(original, hs[n]) <==> forall i :: 0 <= i < n ==> Prompt(hs[i], events[i]))
  {
    if n > 0 {
      PrefixOver(hs, events, years, n - 1);
      TraceTied(hs, events, years, n - 1);
      SoundBounded(hs, events, years, n - 1);
      assert hs[n - 1 + 1] == Track(hs[n - 1], events[n - 1]);
      StepOver(hs[0].world.expiry.value, hs[n - 1], years, events[n - 1]);
    }
  }

  /** On a whole-second clock, when no prolong writes between another's read and write, the final expiry is never less
      than the original one and all seconds written, and is exactly that if and only if no
      time passed between any prolong's read and its write: time that passes is given away. */
  lemma SerialExactIff(w: World, events: seq<Event>, years: nat)
    requires WholeTrace(Trace(w, events), events, years)
    requires forall i :: 0 <= i < |events| ==> Alone(Trace(w, events)[i], events[i])
    ensures var hs := Trace(w, events);
            && hs[|events|].world.expiry.value >= w.expiry.value + 1000 * hs[|events|].added
            && (Exact(w.expiry.value, hs[|events|]) <==> forall i :: 0 <= i < |events| ==> Prompt(hs[i], events[i]))
  {
    PrefixOver(Trace(w, events), events, years, |events|);
  }

  // ---------- Two overlapping prolongs ----------

  /** Both of two prolongs have read before either writes. */
  function BothRead(w: World, a: int, b: int): World {
    Step(Step(Step(Step(w, Begin(0, a)), Begin(1, b)), Read(0)), Read(1))
  }

  lemma BothReadTheSame(w: World, years: nat, a: int, b: int)
    requires Fresh(w, years) && Live(w.expiry, w.now) && ValidTtl(a) && ValidTtl(b)
    ensures var t := Some(ReadTtl(w.expiry, w.now));
            BothRead(w, a, b) == w.(open := map[0 := Progress(a, t), 1 := Progress(b, t)])
  {
    var w2 := Step(Step(w, Begin(0, a)), Begin(1, b));
    assert w2.open == map[0 := Progress(a, None), 1 := Progress(b, None)];
    assert Step(w2, Read(0)).open == map[0 := Progress(a, Some(ReadTtl(w.expiry, w.now))), 1 := Progress(b, None)];
  }

  lemma WholeWrite(expiry: Option<int>, now: int, ttl: int, years: nat, seconds: nat)
    requires Live(expiry, now) && ValidTtl(ttl) && seconds <= YEAR_SECONDS * years && years <= 291
    ensures Expire(expiry, now, NewTtl(ttl, seconds * SECOND)) == Some(now + 1000 * (seconds + ttl / SECOND))
  {
    WholeSecondsAdd(ttl, seconds);
  }

  lemma FirstWritten(w: World, years: nat, a: int, b: int)
    requires Fresh(w, years) && years <= 291 && Live(w.expiry, w.now) && (w.expiry.value - w.now) % 1000 == 0
    requires ValidTtl(a) && ValidTtl(b)
    ensures var t := (w.expiry.value - w.now) / 1000;
            t <= YEAR_SECONDS * years
            && Step(BothRead(w, a, b), Write(0)) ==
               World(w.now, Some(w.expiry.value + 1000 * (a / SECOND)), map[1 := Progress(b, Some(t * SECOND))], 1)
  {
    BothReadTheSame(w, years, a, b);
    var t := TtlSeconds(w.expiry.value - w.now);
    assert t <= YEAR_SECONDS * years && 1000 * t == w.expiry.value - w.now;
    WholeWrite(w.expiry, w.now, a, years, t);
    assert Step(BothRead(w, a, b), Write(0)).open == map[1 := Progress(b, Some(t * SECOND))];
  }

  /** The writes of both, with `millis` in between. */
  function BothWritten(w: World, a: int, b: int, millis: nat): World {
    Step(Step(Step(BothRead(w, a, b), Write(0)), Advance(millis)), Write(1))
  }

  /** Of two prolongs that both read before either writes the first is lost and the time
      between the writes is given away.  So with no time in between only the later one counts,
      and yet the result is exact when just as much time passes as the first one asked for:
      exactness at the end does not mean that nothing came in between. */
  lemma TwoOverlapping(w: World, years: nat, a: int, b: int, millis: nat)
    requires Fresh(w, years) && years <= 291 && Live(w.expiry, w.now) && (w.expiry.value - w.now) % 1000 == 0
    requires ValidTtl(a) && ValidTtl(b) && w.now + millis <= w.expiry.value + 1000 * (a / SECOND)
    ensures BothWritten(w, a, b, millis).expiry == Some(w.expiry.value + millis + 1000 * (b / SECOND))
    ensures BothWritten(w, a, b, millis).expiry == Some(w.expiry.value + 1000 * (a / SECOND + b / SECOND)) <==>
            millis == 1000 * (a / SECOND)
  {
    FirstWritten(w, years, a, b);
    WholeWrite(Some(w.expiry.value + 1000 * (a / SECOND)), w.now + millis, b, years,
               (w.expiry.value - w.now) / 1000);
  }
}

/** The lifetime of one stored value under ProlongValue (internal/api/handler.go): a TTL is
    read, added to the requested one in int64 nanoseconds and written back, and several such
    read-modify-writes may overlap.  The clock counts milliseconds. */
module Prolonging {
  import opened Common

  /** One second and the longest TTL a request may ask for, in nanoseconds. */
  const SECOND := 1_000_000_000
  const YEAR_SECONDS := 31536000

  /** Validation of the requested TTL. */
  predicate ValidTtl(ttl: int) {
    SECOND <= ttl <= YEAR_SECONDS * SECOND
  }

  predicate Live(expiry: Option<int>, now: int) {
    expiry.Some? && Alive(now, expiry.value)
  }

  /** Redis' TTL: the remaining milliseconds rounded to whole seconds. */
  function TtlSeconds(remaining: nat): nat {
    (remaining + 500) / 1000
  }

  /** The client's TTL: whole seconds as a duration, or minus two nanoseconds for a missing key. */
  function ReadTtl(expiry: Option<int>, now: int): int {
    if Live(expiry, now) then TtlSeconds(expiry.value - now) * SECOND else -2
  }

  /** Go's division, which truncates toward zero. */
  function Truncate(x: int, d: nat): int
    requires d > 0
  {
    if x >= 0 then x / d else -(-x / d)
  }

  /** The seconds the client sends with EXPIRE. */
  function FormatSec(duration: int): int {
    if 0 < duration < SECOND then 1 else Truncate(duration, SECOND)
  }

  /** EXPIRE: no effect on a missing key, and a lifetime that is not positive deletes it. */
  function Expire(expiry: Option<int>, now: int, duration: int): Option<int> {
    if !Live(expiry, now) then expiry
    else if FormatSec(duration) <= 0 then None
    else Some(now + 1000 * FormatSec(duration))
  }

  /** The new lifetime ProlongValue computes. */
  function NewTtl(ttl: int, seen: int): int {
    Wrap64(ttl + seen)
  }

  /** One prolong with nothing in between. */
  function Prolong(expiry: Option<int>, now: int, ttl: int): Option<int> {
    Expire(expiry, now, NewTtl(ttl, ReadTtl(expiry, now)))
  }

  /** Adding a valid request to a whole number of seconds adds its whole seconds. */
  lemma WholeSecondsAdd(ttl: int, seconds: nat)
    requires ttl >= SECOND
    ensures FormatSec(ttl + seconds * SECOND) == seconds + ttl / SECOND
  {
  }

  /** A request may ask for one second up to 365 days. */
  lemma ValidTtlIff(ttl: int)
    ensures ValidTtl(ttl) <==> 1_000_000_000 <= ttl <= 31_536_000_000_000_000
  {
  }

  /** A prolong of a live value keeps it exactly when the sum of the two lifetimes fits int64
      nanoseconds; beyond that the sum wraps to a negative duration and the value is deleted. */
  lemma ProlongKeepsIffFits(expiry: int, now: int, ttl: int)
    requires Alive(now, expiry) && ValidTtl(ttl)
    requires TtlSeconds(expiry - now) * SECOND <= MAX_INT64
    ensures Prolong(Some(expiry), now, ttl).Some? <==>
            ttl + TtlSeconds(expiry - now) * SECOND <= MAX_INT64
  {
  }

  /** When it fits, the expiry moves by the whole seconds requested, up to the half second
      Redis' TTL rounds away, and exactly so when the remaining lifetime is whole seconds. */
  lemma ProlongAdds(expiry: int, now: int, ttl: int)
    requires Alive(now, expiry) && ValidTtl(ttl)
    requires ttl + TtlSeconds(expiry - now) * SECOND <= MAX_INT64
    ensures var after := Prolong(Some(expiry), now, ttl);
            && after.Some?
            && expiry + 1000 * (ttl / SECOND) - 499 <= after.value <= expiry + 1000 * (ttl / SECOND) + 500
            && (after.value == expiry + 1000 * (ttl / SECOND) <==> (expiry - now) % 1000 == 0)
  {
    WholeSecondsAdd(ttl, TtlSeconds(expiry - now));
  }

  /** A prolong that finds the value gone when it reads the TTL is not told so: exactly then it
      answers the lifetime asked for less the two nanoseconds that stand for a missing key, and
      it leaves everything as it was. */
  lemma ProlongOfGone(expiry: Option<int>, now: int, later: nat, ttl: int)
    requires ValidTtl(ttl) && (Live(expiry, now) ==> TtlSeconds(expiry.value - now) * SECOND <= MAX_INT64)
    ensures NewTtl(ttl, ReadTtl(expiry, now)) == ttl - 2 <==> expiry == None || expiry.value < now
    ensures expiry == None || expiry.value < now ==> Expire(expiry, now + later, ttl - 2) == expiry
  {
  }

  /** Serial prolongs of one value: when each one happens and what it asks for. */
  datatype Request = Request(at: int, ttl: int)

  function Serial(expiry: Option<int>, requests: seq<Request>): Option<int> {
    if requests == [] then expiry
    else
      var last := requests[|requests| - 1];
      Prolong(Serial(expiry, requests[..|requests| - 1]), last.at, last.ttl)
  }

  function TotalSeconds(requests: seq<Request>): int {
    if requests == [] then 0
    else TotalSeconds(requests[..|requests| - 1]) + requests[|requests| - 1].ttl / SECOND
  }

  /** The request meets a live value with room for it, a whole number of seconds before it
      expires. */
  predicate OnTime(expiry: int, r: Request) {
    && ValidTtl(r.ttl)
    && r.at <= expiry && (expiry - r.at) % 1000 == 0
    && r.ttl + (expiry - r.at) / 1000 * SECOND <= MAX_INT64
  }

  lemma ProlongOnTime(expiry: int, r: Request)
    requires OnTime(expiry, r)
    ensures Prolong(Some(expiry), r.at, r.ttl) == Some(expiry + 1000 * (r.ttl / SECOND))
  {
    assert TtlSeconds(expiry - r.at) == (expiry - r.at) / 1000;
    ProlongAdds(expiry, r.at, r.ttl);
  }

  /** Each request is on time for the expiry the ones before it lead to. */
  ghost predicate AllOnTime(expiry: int, requests: seq<Request>) {
    forall i {:trigger requests[i]} :: 0 <= i < |requests| ==>
      OnTime(expiry + 1000 * TotalSeconds(requests[..i]), requests[i])
  }

  lemma AllOnTimePrefix(expiry: int, requests: seq<Request>, n: nat)
    requires n <= |requests| && AllOnTime(expiry, requests)
    ensures AllOnTime(expiry, requests[..n])
  {
    var init := requests[..n];
    forall i | 0 <= i < n ensures OnTime(expiry + 1000 * TotalSeconds(init[..i]), init[i]) {
      assert init[..i] == requests[..i] && init[i] == requests[i];
    }
  }

  /** Serial prolongs on a whole-second clock add exactly the seconds they ask for. */
  lemma {:induction false} SerialProlongsAdd(expiry: int, requests: seq<Request>)
    requires AllOnTime(expiry, requests)
    ensures Serial(Some(expiry), requests) == Some(expiry + 1000 * TotalSeconds(requests))
  {
    if requests != [] {
      var n := |requests| - 1;
      AllOnTimePrefix(expiry, requests, n);
      SerialProlongsAdd(expiry, requests[..n]);
      assert OnTime(expiry + 1000 * TotalSeconds(requests[..n]), requests[n]);
      ProlongOnTime(expiry + 1000 * TotalSeconds(requests[..n]), requests[n]);
    }
  }

  // ---------- Overlapping prolongs ----------

  /** A prolong in progress; `seen` is the TTL it has read, once it has. */
  datatype Progress = Progress(ttl: int, seen: Option<int>)

  /** One value, the prolongs in progress on it and how many have written. */
  datatype World = World(now: int, expiry: Option<int>, open: map<nat, Progress>, writes: nat)

  datatype Event =
    | Begin(id: nat, ttl: int)   // validated and within the size limit
    | Read(id: nat)
    | Write(id: nat)
    | Advance(millis: nat)

  function Step(w: World, e: Event): World {
    match e
    case Begin(id, ttl) =>
      if id in w.open || !ValidTtl(ttl) || !Live(w.expiry, w.now) then w
      else w.(open := w.open[id := Progress(ttl, None)])
    case Read(id) =>
      if id !in w.open || w.open[id].seen.Some? then w
      else w.(open := w.open[id := w.open[id].(seen := Some(ReadTtl(w.expiry, w.now)))])
    case Write(id) =>
      if id !in w.open || w.open[id].seen.None? then w
      else
        var p := w.open[id];
        w.(expiry := Expire(w.expiry, w.now, NewTtl(p.ttl, p.seen.value)),
           open := w.open - {id},
           writes := w.writes + 1)
    case Advance(millis) => w.(now := w.now + millis)
  }

  function Run(w: World, events: seq<Event>): World {
    if events == [] then w
    else Step(Run(w, events[..|events| - 1]), events[|events| - 1])
  }

  /** The value is alive after every prefix of the run. */
  ghost predicate StaysLive(w: World, events: seq<Event>) {
    forall n :: 0 <= n <= |events| ==> Live(Run(w, events[..n]).expiry, Run(w, events[..n]).now)
  }

  lemma StaysLivePrefix(w: World, events: seq<Event>)
    requires events != [] && StaysLive(w, events)
    ensures StaysLive(w, events[..|events| - 1])
    ensures Live(Run(w, events).expiry, Run(w, events).now)
  {
    var init := events[..|events| - 1];
    forall n | 0 <= n <= |init| ensures Live(Run(w, init[..n]).expiry, Run(w, init[..n]).now) {
      assert init[..n] == events[..n];
    }
    assert events[..|events|] == events;
  }

  /** Every lifetime in play is at most one year for each of `years` plus the writes so far. */
  ghost predicate Bounded(w: World, years: nat) {
    && (w.expiry.Some? ==> w.expiry.value - w.now <= 1000 * YEAR_SECONDS * (years + w.writes))
    && (forall id :: id in w.open ==>
          && ValidTtl(w.open[id].ttl)
          && (w.open[id].seen.Some? ==>
                -2 <= w.open[id].seen.value <= SECOND * YEAR_SECONDS * (years + w.writes)))
  }

  lemma SumFits(years: nat, writes: nat, ttl: int, seen: int)
    requires years + writes + 1 <= 292 && ValidTtl(ttl)
    requires -2 <= seen <= SECOND * YEAR_SECONDS * (years + writes)
    ensures 0 < ttl + seen <= MAX_INT64 && NewTtl(ttl, seen) == ttl + seen
    ensures FormatSec(ttl + seen) <= YEAR_SECONDS * (years + writes + 1)
    ensures FormatSec(ttl + seen) >= 1
  {
    var n := years + writes;
    assert ttl + seen <= SECOND * YEAR_SECONDS * (n + 1);
    assert SECOND * YEAR_SECONDS * (n + 1) <= SECOND * YEAR_SECONDS * 292 <= MAX_INT64;
    assert (ttl + seen) / SECOND <= YEAR_SECONDS * (n + 1);
  }

  lemma StepBounded(w: World, years: nat, e: Event)
    requires Bounded(w, years)
    requires years + Step(w, e).writes <= 292
    ensures Bounded(Step(w, e), years)
  {
    var n := years + w.writes;
    match e {
      case Begin(id, ttl) =>
      case Read(id) =>
        if Live(w.expiry, w.now) {
          assert TtlSeconds(w.expiry.value - w.now) <= YEAR_SECONDS * n;
          assert TtlSeconds(w.expiry.value - w.now) * SECOND <= SECOND * (YEAR_SECONDS * n);
          assert SECOND * (YEAR_SECONDS * n) == SECOND * YEAR_SECONDS * n;
        }
      case Write(id) =>
        if id in w.open && w.open[id].seen.Some? {
          SumFits(years, w.writes, w.open[id].ttl, w.open[id].seen.value);
          assert SECOND * YEAR_SECONDS * n <= SECOND * YEAR_SECONDS * (n + 1);
          assert 1000 * YEAR_SECONDS * n <= 1000 * YEAR_SECONDS * (n + 1);
        }
      case Advance(millis) =>
    }
  }

  lemma {:induction false} RunBounded(w: World, years: nat, events: seq<Event>)
    requires Bounded(w, years)
    requires years + Run(w, events).writes <= 292
    ensures Bounded(Run(w, events), years)
  {
    if events != [] {
      var before := Run(w, events[..|events| - 1]);
      assert before.writes <= Run(w, events).writes;
      RunBounded(w, years, events[..|events| - 1]);
      StepBounded(before, years, events[|events| - 1]);
    }
  }

  /** A value that nobody is prolonging yet, with at most `years` years left. */
  predicate Fresh(w: World, years: nat) {
    && w.open == map[] && w.writes == 0
    && w.expiry.Some? && w.expiry.value - w.now <= 1000 * YEAR_SECONDS * years
  }

  /** However prolongs overlap, as long as the years left at the start and the prolongs written
      number at most 291, the next sum is within int64: a value created for at most a year takes
      291 prolongs of up to a year. */
  lemma ProlongsNeverOverflow(w: World, years: nat, events: seq<Event>, id: nat)
    requires Fresh(w, years)
    requires var after := Run(w, events);
             years + after.writes <= 291 && id in after.open && after.open[id].seen.Some?
    ensures var p := Run(w, events).open[id];
            NewTtl(p.ttl, p.seen.value) == p.ttl + p.seen.value > 0
  {
    RunBounded(w, years, events);
    var after := Run(w, events);
    SumFits(years, after.writes, after.open[id].ttl, after.open[id].seen.value);
  }

  /** The count is sharp: a prolong by 365 days of a value with 292 times 365 days left deletes
      it. */
  lemma OneMoreYearDeletes(now: int)
    ensures ValidTtl(365 * 86_400 * 1_000_000_000)
    ensures Prolong(Some(now + 292 * 365 * 86_400_000), now, 365 * 86_400 * 1_000_000_000) == None
  {
  }

  /** Every prolong in progress will still write at least the original expiry. */
  ghost predicate NotBelow(w: World, original: int, seconds: nat, slack: nat) {
    && w.expiry.Some? && w.expiry.value >= original
    && (w.writes > 0 ==> w.expiry.value >= original + 1000 * seconds - slack)
    && (slack == 0 ==> (w.expiry.value - w.now) % 1000 == 0)
    && (forall id :: id in w.open ==>
          && w.open[id].ttl >= seconds * SECOND
          && (w.open[id].seen.Some? ==>
                var seen := w.open[id].seen.value;
                seen >= 0 && seen % SECOND == 0 && seen / SECOND * 1000 + w.now >= original - slack))
  }

  ghost predicate AsksFor(e: Event, seconds: nat, slack: nat) {
    && (e.Begin? ==> e.ttl >= seconds * SECOND)
    && (e.Advance? && slack == 0 ==> e.millis % 1000 == 0)
  }

  lemma WriteNotBelow(w: World, original: int, seconds: nat, slack: nat, id: nat)
    requires NotBelow(w, original, seconds, slack) && seconds >= 1 && slack <= 499
    requires Live(w.expiry, w.now)
    requires id in w.open && w.open[id].seen.Some?
    requires NewTtl(w.open[id].ttl, w.open[id].seen.value) == w.open[id].ttl + w.open[id].seen.value
    ensures NotBelow(Step(w, Write(id)), original, seconds, slack)
  {
    var p := w.open[id];
    var held := p.seen.value / SECOND;
    assert p.seen.value == held * SECOND;
    WholeSecondsAdd(p.ttl, held);
    assert p.ttl / SECOND >= seconds;
  }

  lemma ReadNotBelow(w: World, original: int, seconds: nat, slack: nat, id: nat)
    requires NotBelow(w, original, seconds, slack) && (slack == 0 || slack == 499)
    requires Live(w.expiry, w.now)
    ensures NotBelow(Step(w, Read(id)), original, seconds, slack)
  {
    var t := TtlSeconds(w.expiry.value - w.now);
    assert t * SECOND / SECOND == t && t * SECOND % SECOND == 0;
  }

  lemma StepNotBelow(w: World, years: nat, e: Event, original: int, seconds: nat, slack: nat)
    requires seconds >= 1 && (slack == 0 || slack == 499)
    requires NotBelow(w, original, seconds, slack) && Bounded(w, years)
    requires AsksFor(e, seconds, slack) && Live(w.expiry, w.now)
    requires years + Step(w, e).writes <= 292
    ensures NotBelow(Step(w, e), original, seconds, slack)
  {
    match e {
      case Begin(_, _) =>
      case Read(id) => ReadNotBelow(w, original, seconds, slack, id);
      case Write(id) =>
        if id in w.open && w.open[id].seen.Some? {
          SumFits(years, w.writes, w.open[id].ttl, w.open[id].seen.value);
          WriteNotBelow(w, original, seconds, slack, id);
        }
      case Advance(_) =>
    }
  }

  lemma {:induction false} RunNotBelow(w: World, years: nat, events: seq<Event>, original: int,
                                       seconds: nat, slack: nat)
    requires seconds >= 1 && (slack == 0 || slack == 499)
    requires NotBelow(w, original, seconds, slack) && Bounded(w, years)
    requires forall e :: e in events ==> AsksFor(e, seconds, slack)
    requires StaysLive(w, events) && years + Run(w, events).writes <= 292
    ensures NotBelow(Run(w, events), original, seconds, slack)
  {
    if events != [] {
      var n := |events| - 1;
      var before := Run(w, events[..n]);
      assert before.writes <= Run(w, events).writes && events[n] in events;
      StaysLivePrefix(w, events);
      RunNotBelow(w, years, events[..n], original, seconds, slack);
      RunBounded(w, years, events[..n]);
      StepNotBelow(before, years, events[n], original, seconds, slack);
    }
  }

  /** Overlapping prolongs lose updates but never the least one: while the value stays alive,
      after any interleaving in which at least one prolong has written, the expiry is at least
      the original one plus the smallest request, up to half a second of rounding and without
      it on a whole-second clock. */
  lemma OverlappingProlongs(w: World, years: nat, events: seq<Event>, seconds: nat, slack: nat)
    requires Fresh(w, years) && seconds >= 1
    requires slack == 499 || (slack == 0 && (w.expiry.value - w.now) % 1000 == 0)
    requires forall e :: e in events ==> AsksFor(e, seconds, slack)
    requires StaysLive(w, events) && years + Run(w, events).writes <= 292
    ensures var after := Run(w, events);
            && after.expiry.Some? && after.expiry.value >= w.expiry.value
            && (after.writes > 0 ==> after.expiry.value >= w.expiry.value + 1000 * seconds - slack)
  {
    assert NotBelow(w, w.expiry.value, seconds, slack);
    assert Bounded(w, years);
    RunNotBelow(w, years, events, w.expiry.value, seconds, slack);
  }
}

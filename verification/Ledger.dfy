/** Every interleaving of redemptions, charges, handlers and restarts, and the books that
    must balance: what is stored, what was charged, what was granted. */
module Ledger {
  import opened Common
  import opened Pricing
  import opened Sessions

  /** The service and, beside it, its books.  `inFlight` holds the admitted requests, paid or
      free, whose handler has not run yet, and `refused` the sessions that were asked for more
      than they had. */
  datatype World = World(
    salt: string,
    balances: Balances,
    minted: set<SessionToken>,
    inFlight: seq<Request>,
    granted: map<string, int>,
    accepted: map<string, int>,
    refused: set<string>,
    redeemed: set<(string, string)>,
    stored: int)

  datatype Event =
    | Redeem(token: QuotaToken, checked: int, now: int)
    | Arrive(req: Request, auth: Authorization, now: int)   // the interceptor admits, the handler waits
    | Finish(index: nat, handled: bool)                     // validation and handler of one waiting request
    | Restart(salt: string)                                 // a new process: fresh salt, waiting requests lost

  function Redemption(hash: (string, string) -> string, w: World, t: QuotaToken, checked: int, now: int)
    : (World, Result<Session>)
  {
    var id := hash(w.salt, t.jti);
    var (after, minted, r) := Login(w.balances, w.minted, id, t, checked, now);
    if r.Err? then (w, r)
    else
      (w.(balances := after,
          minted := minted,
          redeemed := w.redeemed + {(w.salt, t.jti)},
          granted := if id in w.balances then w.granted else w.granted[id := t.quantity],
          accepted := if id in w.balances then w.accepted else w.accepted[id := 0]),
       r)
  }

  function Price(req: Request): (r: int)
    ensures IsInt64(r)
  {
    match GetPrice(req) case Ok(p) => p case Err(_) => 0
  }

  function Credit(m: map<string, int>, id: string, amount: int): map<string, int> {
    m[id := (if id in m then m[id] else 0) + amount]
  }

  function Step(hash: (string, string) -> string, w: World, e: Event): World {
    match e
    case Redeem(t, checked, now) => Redemption(hash, w, t, checked, now).0
    case Arrive(req, auth, now) =>
      (match Admit(w.balances, w.minted, req, auth, now)
       case (after, Ok(Paid(session))) =>
         w.(balances := after,
            inFlight := w.inFlight + [req],
            accepted := Credit(w.accepted, session.id, Price(req)))
       case (after, Ok(Unpaid)) => w.(balances := after, inFlight := w.inFlight + [req])
       case (after, Err(_)) =>
         w.(balances := after,
            refused := w.refused + if Bears(w.minted, auth, now) && Price(req) > 0 then {auth.token.subject} else {}))
    case Finish(i, handled) =>
      if i >= |w.inFlight| then w
      else
        var req := w.inFlight[i];
        w.(inFlight := w.inFlight[..i] + w.inFlight[i + 1..],
           stored := w.stored + if handled && WithinLimits(req) then Units(req) else 0)
    case Restart(salt) => w.(salt := salt, inFlight := [])
  }

  function RunFrom(hash: (string, string) -> string, w: World, events: seq<Event>): World {
    if events == [] then w
    else Step(hash, RunFrom(hash, w, events[..|events| - 1]), events[|events| - 1])
  }

  function Start(salt: string): World {
    World(salt, map[], {}, [], map[], map[], {}, {}, 0)
  }

  ghost predicate WellFormed(events: seq<Event>) {
    forall e :: e in events ==>
      && (e.Arrive? ==> WellTyped(e.req))
      && (e.Redeem? ==> e.token.quantity <= MAX_INT64)
  }

  /** What was charged for an admitted request. */
  function Charge(req: Request): int {
    if req.procedure in FREE_PROCEDURES then 0 else Price(req)
  }

  /** The charges of the waiting requests. */
  function Owed(reqs: seq<Request>): int {
    if reqs == [] then 0
    else
      var last := reqs[|reqs| - 1];
      Owed(reqs[..|reqs| - 1]) + Charge(last)
  }

  ghost predicate Waiting(reqs: seq<Request>) {
    forall r :: r in reqs ==> WellTyped(r) && Charge(r) >= 0
  }

  /** One session's books: nothing overspent, and the balance is what is left of the grant until
      a charge is refused, and negative from then on. */
  predicate SessionBalanced(balance: int, granted: int, accepted: int, refused: bool) {
    && 0 <= accepted <= granted <= MAX_INT64
    && if refused then balance < 0 else balance == granted - accepted
  }

  ghost predicate SessionsBalanced(balances: Balances, granted: map<string, int>, accepted: map<string, int>,
                                   refused: set<string>)
  {
    && balances.Keys == granted.Keys == accepted.Keys && refused <= balances.Keys
    && forall id :: id in balances ==> SessionBalanced(balances[id], granted[id], accepted[id], id in refused)
  }

  ghost predicate Balanced(w: World) {
    && SessionsBalanced(w.balances, w.granted, w.accepted, w.refused)
    && (forall t :: t in w.minted ==> t.subject in w.balances)
    && Waiting(w.inFlight)
    && w.stored + Owed(w.inFlight) <= Sum(w.accepted)
  }

  lemma {:induction false} OwedAppend(a: seq<Request>, b: seq<Request>)
    ensures Owed(a + b) == Owed(a) + Owed(b)
    decreases |b|
  {
    if b == [] {
      assert a + b == a;
    } else {
      var n := |b| - 1;
      assert (a + b)[..|a| + n] == a + b[..n];
      OwedAppend(a, b[..n]);
    }
  }

  lemma OwedWithout(reqs: seq<Request>, i: nat)
    requires i < |reqs|
    ensures Owed(reqs) == Owed(reqs[..i] + reqs[i + 1..]) + Charge(reqs[i])
  {
    OwedAppend(reqs[..i], reqs[i + 1..]);
    OwedAppend(reqs[..i], reqs[i..]);
    OwedAppend([reqs[i]], reqs[i + 1..]);
    assert reqs[..i] + reqs[i..] == reqs && [reqs[i]] + reqs[i + 1..] == reqs[i..];
    assert [reqs[i]][..0] == [];
  }

  lemma {:induction false} OwedNonNegative(reqs: seq<Request>)
    requires Waiting(reqs)
    ensures Owed(reqs) >= 0
  {
    if reqs != [] {
      OwedNonNegative(reqs[..|reqs| - 1]);
    }
  }

  lemma RedeemBalanced(hash: (string, string) -> string, w: World, t: QuotaToken, checked: int, now: int)
    requires Balanced(w) && t.quantity <= MAX_INT64
    ensures Balanced(Redemption(hash, w, t, checked, now).0)
  {
    SumUpdate(w.accepted, hash(w.salt, t.jti), 0);
  }

  lemma OwedSnoc(reqs: seq<Request>, r: Request)
    ensures Owed(reqs + [r]) == Owed(reqs) + Charge(r)
  {
    assert (reqs + [r])[..|reqs|] == reqs;
  }

  /** A charge keeps the books of its own session and touches no other. */
  lemma ChargeBalanced(b: Balances, granted: map<string, int>, accepted: map<string, int>, refused: set<string>,
                       id: string, price: int)
    requires SessionsBalanced(b, granted, accepted, refused) && id in b && IsInt64(price)
    ensures var (after, r) := Deduct(b, id, price);
            after.Keys == b.Keys
            && if r.Ok? then
                 && price > 0 && r.value.id == id
                 && SessionsBalanced(after, granted, Credit(accepted, id, price), refused)
                 && Sum(Credit(accepted, id, price)) == Sum(accepted) + price
               else SessionsBalanced(after, granted, accepted, refused + if price > 0 then {id} else {})
  {
    assert SessionBalanced(b[id], granted[id], accepted[id], id in refused);
    SumUpdate(accepted, id, accepted[id] + price);
  }

  lemma AcceptedBalanced(w: World, id: string, req: Request)
    requires Balanced(w) && id in w.balances
    requires WellTyped(req) && req.procedure !in FREE_PROCEDURES
    requires Deduct(w.balances, id, Price(req)).1.Ok?
    ensures Balanced(w.(balances := Deduct(w.balances, id, Price(req)).0,
                        inFlight := w.inFlight + [req],
                        accepted := Credit(w.accepted, id, Price(req))))
  {
    ChargeBalanced(w.balances, w.granted, w.accepted, w.refused, id, Price(req));
    OwedSnoc(w.inFlight, req);
  }

  lemma RefusedBalanced(w: World, id: string, price: int)
    requires Balanced(w) && id in w.balances && IsInt64(price)
    requires Deduct(w.balances, id, price).1.Err?
    ensures Balanced(w.(balances := Deduct(w.balances, id, price).0,
                        refused := w.refused + if price > 0 then {id} else {}))
  {
    ChargeBalanced(w.balances, w.granted, w.accepted, w.refused, id, price);
  }

  lemma FreeBalanced(w: World, req: Request)
    requires Balanced(w) && WellTyped(req) && req.procedure in FREE_PROCEDURES
    ensures Balanced(w.(inFlight := w.inFlight + [req]))
  {
    OwedSnoc(w.inFlight, req);
  }

  /** A request with a good token ends as its charge does. */
  lemma BearerArrives(hash: (string, string) -> string, w: World, req: Request, auth: Authorization, now: int)
    requires req.procedure !in FREE_PROCEDURES && Bears(w.minted, auth, now) && GetPrice(req).Ok?
    ensures var (after, r) := Deduct(w.balances, auth.token.subject, Price(req));
            Step(hash, w, Arrive(req, auth, now)) ==
            if r.Ok? then
              w.(balances := after, inFlight := w.inFlight + [req],
                 accepted := Credit(w.accepted, auth.token.subject, Price(req)))
            else
              w.(balances := after, refused := w.refused + if Price(req) > 0 then {auth.token.subject} else {})
  {
  }

  lemma ArriveBalanced(hash: (string, string) -> string, w: World, req: Request, auth: Authorization, now: int)
    requires Balanced(w) && WellTyped(req)
    ensures Balanced(Step(hash, w, Arrive(req, auth, now)))
  {
    if req.procedure in FREE_PROCEDURES {
      FreeBalanced(w, req);
    } else if Bears(w.minted, auth, now) && GetPrice(req).Ok? {
      BearerArrives(hash, w, req, auth, now);
      if Deduct(w.balances, auth.token.subject, Price(req)).1.Ok? {
        AcceptedBalanced(w, auth.token.subject, req);
      } else {
        RefusedBalanced(w, auth.token.subject, Price(req));
      }
    } else {
      assert w.refused + {} == w.refused;
      assert Step(hash, w, Arrive(req, auth, now)) == w;
    }
  }

  lemma FinishBalanced(hash: (string, string) -> string, w: World, i: nat, handled: bool)
    requires Balanced(w)
    ensures Balanced(Step(hash, w, Finish(i, handled)))
  {
    if i < |w.inFlight| {
      var req := w.inFlight[i];
      OwedWithout(w.inFlight, i);
      if req.procedure in FREE_PROCEDURES {
        FreeCallsStoreNothing(req);
      } else if WithinLimits(req) {
        PriceCoversUnits(req);
      }
    }
  }

  lemma {:induction false} RunBalanced(hash: (string, string) -> string, w: World, events: seq<Event>)
    requires Balanced(w) && WellFormed(events)
    ensures Balanced(RunFrom(hash, w, events))
  {
    if events != [] {
      var before := RunFrom(hash, w, events[..|events| - 1]);
      RunBalanced(hash, w, events[..|events| - 1]);
      var last := events[|events| - 1];
      assert last in events;
      match last {
        case Redeem(t, checked, now) => RedeemBalanced(hash, before, t, checked, now);
        case Arrive(req, auth, now) => ArriveBalanced(hash, before, req, auth, now);
        case Finish(i, handled) => FinishBalanced(hash, before, i, handled);
        case Restart(salt) => OwedNonNegative(before.inFlight);
      }
    }
  }

  /** Every session token ever minted names a stored balance, so DECRBY never meets a missing
      counter. */
  lemma {:induction false} MintedTokensHaveBalances(hash: (string, string) -> string, salt: string, events: seq<Event>, t: SessionToken)
    requires WellFormed(events)
    requires t in RunFrom(hash, Start(salt), events).minted
    ensures t.subject in RunFrom(hash, Start(salt), events).balances
  {
    RunBalanced(hash, Start(salt), events);
  }

  ghost predicate Injective(hash: (string, string) -> string) {
    forall s, j, s', j' :: hash(s, j) == hash(s', j') ==> s == s' && j == j'
  }

  lemma ArriveKeepsSessions(hash: (string, string) -> string, w: World, req: Request, auth: Authorization, now: int)
    requires Balanced(w)
    ensures var next := Step(hash, w, Arrive(req, auth, now));
            next.balances.Keys == w.balances.Keys && next.redeemed == w.redeemed
            && next.granted == w.granted
  {
  }

  function SessionIds(hash: (string, string) -> string, pairs: set<(string, string)>): set<string> {
    set p | p in pairs :: hash(p.0, p.1)
  }

  /** The sessions are exactly those of the redeemed (salt, jti) pairs. */
  lemma {:induction false} SessionsAreRedeemed(hash: (string, string) -> string, salt: string, events: seq<Event>)
    requires WellFormed(events)
    ensures var w := RunFrom(hash, Start(salt), events);
            w.balances.Keys == SessionIds(hash, w.redeemed)
  {
    if events != [] {
      var init := events[..|events| - 1];
      SessionsAreRedeemed(hash, salt, init);
      RunBalanced(hash, Start(salt), init);
      var w := RunFrom(hash, Start(salt), init);
      match events[|events| - 1] {
        case Redeem(t, checked, now) =>
          assert SessionIds(hash, w.redeemed + {(w.salt, t.jti)})
              == SessionIds(hash, w.redeemed) + {hash(w.salt, t.jti)};
        case Arrive(req, auth, now) =>
          ArriveKeepsSessions(hash, w, req, auth, now);
        case Finish(_, _) =>
        case Restart(_) =>
      }
    }
  }

  /** A valid token grants its quantity exactly when its jti was not redeemed before under
      the same salt; otherwise it grants nothing and reports the current balance of the same
      session. */
  lemma GrantsOncePerSalt(hash: (string, string) -> string, salt: string, events: seq<Event>,
                          t: QuotaToken, checked: int, now: int)
    requires Injective(hash) && WellFormed(events) && t.quantity <= MAX_INT64
    requires TokenStatus(t, checked, now).Ok?
    ensures var w := RunFrom(hash, Start(salt), events);
            var (next, r) := Redemption(hash, w, t, checked, now);
            var id := hash(w.salt, t.jti);
            && r.Ok? && r.value.id == id
            && Sum(next.granted) == Sum(w.granted) + (if (w.salt, t.jti) in w.redeemed then 0 else t.quantity)
            && (if (w.salt, t.jti) in w.redeemed
                then id in w.balances && next.balances == w.balances && r.value.balance == w.balances[id]
                else next.balances == w.balances[id := t.quantity] && r.value.balance == t.quantity)
  {
    var w := RunFrom(hash, Start(salt), events);
    var id := hash(w.salt, t.jti);
    SessionsAreRedeemed(hash, salt, events);
    RunBalanced(hash, Start(salt), events);
    if id in w.balances {
      var p :| p in w.redeemed && id == hash(p.0, p.1);
      assert p == (w.salt, t.jti);
    }
    SumUpdate(w.granted, id, t.quantity);
  }

  function SaltAfter(salt: string, events: seq<Event>): string {
    if events == [] then salt
    else
      var last := events[|events| - 1];
      if last.Restart? then last.salt else SaltAfter(salt, events[..|events| - 1])
  }

  predicate Redeems(e: Event) {
    e.Redeem? && TokenStatus(e.token, e.checked, e.now).Ok?
  }

  /** The (salt, jti) pairs of the valid redemptions in a run. */
  function Redeemed(salt: string, events: seq<Event>): set<(string, string)> {
    if events == [] then {}
    else
      var init, last := events[..|events| - 1], events[|events| - 1];
      Redeemed(salt, init) + if Redeems(last) then {(SaltAfter(salt, init), last.token.jti)} else {}
  }

  /** The quantities of the quota tokens, each counted only the first time its jti is redeemed
      under a salt.  This looks at the events alone. */
  function FirstQuantities(salt: string, events: seq<Event>): int {
    if events == [] then 0
    else
      var init, last := events[..|events| - 1], events[|events| - 1];
      FirstQuantities(salt, init) +
      if Redeems(last) && (SaltAfter(salt, init), last.token.jti) !in Redeemed(salt, init)
      then last.token.quantity else 0
  }

  lemma {:induction false} GrantsAreFirstQuantities(hash: (string, string) -> string, salt: string, events: seq<Event>)
    requires Injective(hash) && WellFormed(events)
    ensures var w := RunFrom(hash, Start(salt), events);
            && w.salt == SaltAfter(salt, events)
            && w.redeemed == Redeemed(salt, events)
            && Sum(w.granted) == FirstQuantities(salt, events)
  {
    if events != [] {
      var init, last := events[..|events| - 1], events[|events| - 1];
      assert last in events;
      GrantsAreFirstQuantities(hash, salt, init);
      if Redeems(last) {
        GrantsOncePerSalt(hash, salt, init, last.token, last.checked, last.now);
      } else if last.Arrive? {
        RunBalanced(hash, Start(salt), init);
        ArriveKeepsSessions(hash, RunFrom(hash, Start(salt), init), last.req, last.auth, last.now);
      }
    }
  }

  /** Everything stored is paid for: over every interleaving, with charging before validation,
      unrefunded refusals, lost requests and restarts, what the store took in is at most the
      accepted charges, which are at most the quantities of the quota tokens redeemed, each
      counted once for each salt. */
  lemma EverythingStoredIsPaidFor(hash: (string, string) -> string, salt: string, events: seq<Event>)
    requires Injective(hash) && WellFormed(events)
    ensures var w := RunFrom(hash, Start(salt), events);
            w.stored <= Sum(w.accepted) <= FirstQuantities(salt, events)
  {
    RunBalanced(hash, Start(salt), events);
    var w := RunFrom(hash, Start(salt), events);
    OwedNonNegative(w.inFlight);
    SumMonotone(w.accepted, w.granted);
    GrantsAreFirstQuantities(hash, salt, events);
  }

  /** Grants are never revised and redemptions never forgotten, whatever happens in between. */
  lemma {:induction false} GrantsPersist(hash: (string, string) -> string, w: World, events: seq<Event>)
    requires Balanced(w) && WellFormed(events)
    ensures var later := RunFrom(hash, w, events);
            w.redeemed <= later.redeemed
            && forall id :: id in w.granted ==> id in later.granted && later.granted[id] == w.granted[id]
  {
    if events != [] {
      var before := RunFrom(hash, w, events[..|events| - 1]);
      GrantsPersist(hash, w, events[..|events| - 1]);
      RunBalanced(hash, w, events[..|events| - 1]);
      var last := events[|events| - 1];
      if last.Arrive? {
        ArriveKeepsSessions(hash, before, last.req, last.auth, last.now);
      }
    }
  }

  /** The salt is part of the condition: a restart between two redemptions of one token
      grants its quantity twice. */
  lemma RestartGrantsAgain(hash: (string, string) -> string, salt: string, other: string, t: QuotaToken, checked: int, now: int)
    requires Injective(hash) && salt != other
    requires TokenStatus(t, checked, now).Ok? && t.quantity <= MAX_INT64
    ensures var w := RunFrom(hash, Start(salt), [Redeem(t, checked, now), Restart(other), Redeem(t, checked, now)]);
            Sum(w.granted) == 2 * t.quantity
  {
    var events := [Redeem(t, checked, now), Restart(other), Redeem(t, checked, now)];
    var w0 := Start(salt);
    var w1 := Step(hash, w0, Redeem(t, checked, now));
    assert [Redeem(t, checked, now)][..0] == [];
    assert RunFrom(hash, w0, [Redeem(t, checked, now)]) == w1;
    assert events[..2][..1] == [Redeem(t, checked, now)];
    var w2 := Step(hash, w1, Restart(other));
    assert RunFrom(hash, w0, events[..2]) == w2;
    assert hash(salt, t.jti) != hash(other, t.jti);
    SumUpdate(w0.granted, hash(salt, t.jti), t.quantity);
    SumUpdate(w1.granted, hash(other, t.jti), t.quantity);
  }
}

/** Who is admitted in a run of the service, read off its events alone: which session tokens are
    good, what each session was granted and what has been asked of it. */
module Admissions {
  import opened Common
  import opened Pricing
  import opened Sessions
  import opened Ledger

  /** A redemption that CreateSession accepts. */
  predicate Good(e: Event) {
    && e.Redeem? && e.token.genuine && e.token.usage == CreateSessionUsage && e.token.quantity > 0
    && e.token.expiry.Some? && e.checked < e.token.expiry.value && e.now <= e.token.expiry.value
  }

  lemma GoodRedeems(e: Event)
    ensures Good(e) <==> Redeems(e)
  {
    if e.Redeem? {
      TokenAcceptedIff(e.token, e.checked, e.now);
    }
  }

  /** The session a redemption under `salt` is for, and the token it is answered with. */
  function SessionOf(hash: (string, string) -> string, salt: string, e: Event): string
    requires Good(e)
  {
    hash(salt, e.token.jti)
  }

  /** The session tokens handed out. */
  function Tokens(hash: (string, string) -> string, salt: string, events: seq<Event>): set<SessionToken> {
    if events == [] then {}
    else
      var init, last := events[..|events| - 1], events[|events| - 1];
      Tokens(hash, salt, init) +
      if Good(last) then {SessionToken(SessionOf(hash, SaltAfter(salt, init), last), last.token.expiry.value)} else {}
  }

  /** What a session was granted: the quantity of its first redemption. */
  function Quantity(hash: (string, string) -> string, salt: string, events: seq<Event>, id: string): Option<int> {
    if events == [] then None
    else
      var init, last := events[..|events| - 1], events[|events| - 1];
      var before := Quantity(hash, salt, init, id);
      if before.Some? then before
      else if Good(last) && SessionOf(hash, SaltAfter(salt, init), last) == id then Some(last.token.quantity)
      else None
  }

  /** The request asks a positive price of a session, with a good token. */
  predicate Asks(tokens: set<SessionToken>, req: Request, auth: Authorization, now: int, id: string) {
    && !Free(req.procedure)
    && auth.Bearer? && auth.usage == ManageSessionUsage && auth.token in tokens && now < auth.token.expiry
    && auth.token.subject == id
    && GetPrice(req).Ok? && GetPrice(req).value > 0
  }

  /** All that was asked of a session, accepted or not. */
  function AskedOf(hash: (string, string) -> string, salt: string, events: seq<Event>, id: string): nat {
    if events == [] then 0
    else
      var init, last := events[..|events| - 1], events[|events| - 1];
      AskedOf(hash, salt, init, id) +
      if last.Arrive? && Asks(Tokens(hash, salt, init), last.req, last.auth, last.now, id)
      then GetPrice(last.req).value else 0
  }

  /** A counter that started at `quantity`, after `asked` was asked of it. */
  predicate Counts(balance: int, quantity: int, asked: nat) {
    && 0 < quantity <= MAX_INT64
    && if asked <= quantity then balance == quantity - asked else -TWO_63 <= balance < 0
  }

  /** The counters and tokens of the service are what the events say. */
  ghost predicate SessionAsSaid(w: World, tokens: set<SessionToken>, id: string, quantity: Option<int>, asked: nat) {
    && (id in w.balances <==> quantity.Some?)
    && (quantity.Some? ==> Counts(w.balances[id], quantity.value, asked))
    && (quantity.None? ==> asked == 0 && forall t :: t in tokens ==> t.subject != id)
  }

  lemma DeductCounts(b: Balances, id: string, amount: int, quantity: int, asked: nat)
    requires id in b && Counts(b[id], quantity, asked) && IsInt64(amount)
    ensures var (after, r) := Deduct(b, id, amount);
            && after.Keys == b.Keys
            && Counts(after[id], quantity, if amount > 0 then asked + amount else asked)
            && forall other :: other in b && other != id ==> after[other] == b[other]
  {
  }

  lemma PriceIsInt64(req: Request)
    ensures GetPrice(req).Ok? ==> IsInt64(GetPrice(req).value)
  {
  }

  /** An arrival touches only the counter it asks. */
  lemma ArriveAsSaid(hash: (string, string) -> string, w: World, req: Request, auth: Authorization, now: int,
                     id: string, quantity: Option<int>, asked: nat)
    requires SessionAsSaid(w, w.minted, id, quantity, asked)
    requires auth.Bearer? && auth.token in w.minted ==> auth.token.subject in w.balances
    ensures var next := Step(hash, w, Arrive(req, auth, now));
            && next.minted == w.minted && next.salt == w.salt
            && SessionAsSaid(next, w.minted, id, quantity,
                             asked + if Asks(w.minted, req, auth, now, id) then GetPrice(req).value else 0)
  {
    FreeIff(req.procedure);
    PriceIsInt64(req);
    if !Free(req.procedure) && Bears(w.minted, auth, now) && GetPrice(req).Ok? {
      BearerArrives(hash, w, req, auth, now);
      if auth.token.subject == id {
        DeductCounts(w.balances, id, GetPrice(req).value, quantity.value, asked);
      }
    }
  }

  lemma RedeemAsSaid(hash: (string, string) -> string, w: World, e: Event, id: string,
                     quantity: Option<int>, asked: nat)
    requires e.Redeem? && e.token.quantity <= MAX_INT64 && SessionAsSaid(w, w.minted, id, quantity, asked)
    ensures var next := Step(hash, w, e);
            var here := Good(e) && SessionOf(hash, w.salt, e) == id;
            && next.minted == w.minted
                 + (if Good(e) then {SessionToken(SessionOf(hash, w.salt, e), e.token.expiry.value)} else {})
            && next.salt == w.salt
            && SessionAsSaid(next, next.minted, id,
                             if quantity.None? && here then Some(e.token.quantity) else quantity, asked)
  {
    GoodRedeems(e);
  }

  /** In every run the tokens that verify are those handed out, and each counter is the first
      quantity redeemed for it less all that was asked of it, or negative once that is more. */
  lemma {:induction false} RunAsSaid(hash: (string, string) -> string, salt: string, events: seq<Event>, id: string)
    requires WellFormed(events)
    ensures var w := RunFrom(hash, Start(salt), events);
            && w.salt == SaltAfter(salt, events)
            && w.minted == Tokens(hash, salt, events)
            && SessionAsSaid(w, w.minted, id, Quantity(hash, salt, events, id), AskedOf(hash, salt, events, id))
  {
    if events != [] {
      var init, last := events[..|events| - 1], events[|events| - 1];
      assert last in events;
      RunAsSaid(hash, salt, init, id);
      StepAsSaid(hash, salt, init, last, id);
    }
  }

  lemma StepAsSaid(hash: (string, string) -> string, salt: string, init: seq<Event>, last: Event, id: string)
    requires WellFormed(init) && (last.Redeem? ==> last.token.quantity <= MAX_INT64)
    requires var w := RunFrom(hash, Start(salt), init);
             && w.salt == SaltAfter(salt, init) && w.minted == Tokens(hash, salt, init)
             && SessionAsSaid(w, w.minted, id, Quantity(hash, salt, init, id), AskedOf(hash, salt, init, id))
    ensures var next := Step(hash, RunFrom(hash, Start(salt), init), last);
            var salt' := SaltAfter(salt, init);
            var here := Good(last) && SessionOf(hash, salt', last) == id;
            var quantity, asked := Quantity(hash, salt, init, id), AskedOf(hash, salt, init, id);
            var tokens := Tokens(hash, salt, init);
            && next.salt == (if last.Restart? then last.salt else salt')
            && next.minted == tokens
                 + (if Good(last) then {SessionToken(SessionOf(hash, salt', last), last.token.expiry.value)} else {})
            && SessionAsSaid(next, next.minted, id,
                             if quantity.None? && here then Some(last.token.quantity) else quantity,
                             asked + if last.Arrive? && Asks(tokens, last.req, last.auth, last.now, id)
                                     then GetPrice(last.req).value else 0)
  {
    var w := RunFrom(hash, Start(salt), init);
    match last {
      case Redeem(_, _, _) =>
        RedeemAsSaid(hash, w, last, id, Quantity(hash, salt, init, id), AskedOf(hash, salt, init, id));
      case Arrive(req, auth, now) =>
        RunBalanced(hash, Start(salt), init);
        ArriveAsSaid(hash, w, req, auth, now, id, Quantity(hash, salt, init, id), AskedOf(hash, salt, init, id));
      case Finish(_, _) =>
      case Restart(_) =>
    }
  }

  /** After any run, a request is admitted and charged exactly when it bears a token that was
      handed out and has not expired and its positive price, with all that was asked of the
      session before, is within what the session was granted; it is admitted free exactly for
      the five free procedures.  The balance reported is what is then left. */
  lemma AdmittedIff(hash: (string, string) -> string, salt: string, events: seq<Event>,
                    req: Request, auth: Authorization, now: int)
    requires WellFormed(events)
    ensures var w := RunFrom(hash, Start(salt), events);
            var r := Admit(w.balances, w.minted, req, auth, now).1;
            && (r == Ok(Unpaid) <==> Free(req.procedure))
            && (r.Ok? && r.value.Paid? <==>
                auth.Bearer?
                && var id := auth.token.subject;
                   && Asks(Tokens(hash, salt, events), req, auth, now, id)
                   && Quantity(hash, salt, events, id).Some?
                   && AskedOf(hash, salt, events, id) + GetPrice(req).value <= Quantity(hash, salt, events, id).value)
            && (r.Ok? && r.value.Paid? ==>
                var id := auth.token.subject;
                r.value.session == Session(id, Quantity(hash, salt, events, id).value
                                               - AskedOf(hash, salt, events, id) - GetPrice(req).value))
  {
    var w := RunFrom(hash, Start(salt), events);
    AdmitIff(w.balances, w.minted, req, auth, now);
    if auth.Bearer? {
      RunAsSaid(hash, salt, events, auth.token.subject);
    } else {
      RunAsSaid(hash, salt, events, "");
    }
  }

  lemma {:induction false} TokensStay(hash: (string, string) -> string, salt: string, events: seq<Event>, n: nat, t: SessionToken)
    requires n <= |events| && t in Tokens(hash, salt, events[..n])
    ensures t in Tokens(hash, salt, events)
    decreases |events|
  {
    if n < |events| {
      var init := events[..|events| - 1];
      assert init[..n] == events[..n];
      TokensStay(hash, salt, init, n, t);
    } else {
      assert events[..n] == events;
    }
  }

  /** End to end: once a quota token is redeemed, and whatever happens then, a request that bears
      the session token handed out for it is admitted and charged exactly when it comes before
      the quota token's expiry and its positive price fits what is left of the session's grant. */
  lemma RedeemedTokenPays(hash: (string, string) -> string, salt: string, events: seq<Event>, n: nat,
                          req: Request, now: int)
    requires WellFormed(events) && n < |events| && Good(events[n])
    requires !Free(req.procedure) && GetPrice(req).Ok? && GetPrice(req).value > 0
    ensures var id := SessionOf(hash, SaltAfter(salt, events[..n]), events[n]);
            var auth := Bearer(ManageSessionUsage, SessionToken(id, events[n].token.expiry.value));
            var w := RunFrom(hash, Start(salt), events);
            var r := Admit(w.balances, w.minted, req, auth, now).1;
            && Quantity(hash, salt, events, id).Some?
            && (r.Ok? <==>
                now < events[n].token.expiry.value
                && AskedOf(hash, salt, events, id) + GetPrice(req).value <= Quantity(hash, salt, events, id).value)
            && (now >= events[n].token.expiry.value ==> r == Err(PermissionDenied))
  {
    var id := SessionOf(hash, SaltAfter(salt, events[..n]), events[n]);
    var token := SessionToken(id, events[n].token.expiry.value);
    var auth := Bearer(ManageSessionUsage, token);
    assert events[..n + 1][..n] == events[..n] && events[..n + 1][n] == events[n];
    assert token in Tokens(hash, salt, events[..n + 1]);
    TokensStay(hash, salt, events, n + 1, token);
    RunAsSaid(hash, salt, events, id);
    AdmittedIff(hash, salt, events, req, auth, now);
    var w := RunFrom(hash, Start(salt), events);
    AdmitIff(w.balances, w.minted, req, auth, now);
  }

  /** In particular the first charge after a first redemption is accepted up to the whole
      quantity, which is what the counter then holds. */
  lemma FirstChargeFits(hash: (string, string) -> string, salt: string, events: seq<Event>, e: Event,
                        req: Request, now: int)
    requires WellFormed(events + [e]) && Good(e)
    requires Quantity(hash, salt, events, SessionOf(hash, SaltAfter(salt, events), e)).None?
    requires !Free(req.procedure) && GetPrice(req).Ok? && GetPrice(req).value > 0
    ensures var id := SessionOf(hash, SaltAfter(salt, events), e);
            var auth := Bearer(ManageSessionUsage, SessionToken(id, e.token.expiry.value));
            var w := RunFrom(hash, Start(salt), events + [e]);
            && id in w.balances && w.balances[id] == e.token.quantity
            && (Admit(w.balances, w.minted, req, auth, now).1.Ok? <==>
                now < e.token.expiry.value && GetPrice(req).value <= e.token.quantity)
  {
    var all := events + [e];
    var id := SessionOf(hash, SaltAfter(salt, events), e);
    assert all[..|events|] == events && all[|events|] == e;
    assert WellFormed(events) by {
      assert forall x :: x in events ==> x in all;
    }
    RunAsSaid(hash, salt, events, id);
    RunAsSaid(hash, salt, all, id);
    RedeemedTokenPays(hash, salt, all, |events|, req, now);
  }
}

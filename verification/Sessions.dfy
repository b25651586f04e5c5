/** Prepaid sessions: the balance counters of pkg/middleware/session.go, the charge of
    pkg/middleware/interceptor.go and the redemption of internal/api/login.go. */
module Sessions {
  import opened Common
  import opened Pricing

  type Balances = map<string, int>

  datatype Usage = Unspecified | CreateSessionUsage | ManageSessionUsage

  /** A quota token; `genuine` is the verdict on its signature and issuer. */
  datatype QuotaToken = QuotaToken(genuine: bool, usage: Usage, jti: string, quantity: int, expiry: Option<int>)

  datatype Session = Session(id: string, balance: int)

  /** The claims of a session token the server signs. */
  datatype SessionToken = SessionToken(subject: string, expiry: int)

  /** What the authorization header holds. */
  datatype Authorization = NoBearer | Bearer(usage: Usage, token: SessionToken)

  /** DECRBY and the checks around it.  A missing counter counts as zero, a decrement below
      the int64 range is an error that changes nothing, and a refused charge is not
      refunded. */
  function Deduct(b: Balances, id: string, amount: int): (Balances, Result<Session>) {
    if amount <= 0 then (b, Err(Internal))
    else
      var next := (if id in b then b[id] else 0) - amount;
      if next < -TWO_63 then (b, Err(Internal))
      else (b[id := next], if next < 0 then Err(Internal) else Ok(Session(id, next)))
  }

  /** SET NX GET. */
  function Open(b: Balances, id: string, quantity: int): (Balances, Session) {
    if id in b then (b, Session(id, b[id])) else (b[id := quantity], Session(id, quantity))
  }

  /** VerifyAndParseJwt when its clock reads `checked`: it refuses expired tokens, but not those
      without an expiry. */
  predicate Verified(t: QuotaToken, checked: int) {
    t.genuine && (t.expiry.Some? ==> checked < t.expiry.value)
  }

  /** The guards of login.go's CreateSession, in order; the last one reads the clock again. */
  function TokenStatus(t: QuotaToken, checked: int, now: int): Result<()> {
    if !Verified(t, checked) then Err(PermissionDenied)
    else if t.usage != CreateSessionUsage then Err(PermissionDenied)
    else if t.quantity <= 0 then Err(InvalidArgument)
    else if t.expiry.None? || t.expiry.value < now then Err(Panic)
    else Ok(())
  }

  /** login.go's CreateSession: the guards, then SET NX GET, then a session token for the
      session is minted that expires with the quota token. */
  function Login(b: Balances, minted: set<SessionToken>, id: string, t: QuotaToken, checked: int, now: int)
    : (Balances, set<SessionToken>, Result<Session>)
  {
    match TokenStatus(t, checked, now)
    case Err(e) => (b, minted, Err(e))
    case Ok(_) =>
      var (after, session) := Open(b, id, t.quantity);
      (after, minted + {SessionToken(session.id, t.expiry.value)}, Ok(session))
  }

  /** CreateSession dereferences a nil error exactly for a genuine create-session token of positive
      quantity that has no expiry, or that expires between the two readings of the clock; and it
      has changed nothing by then. */
  lemma CreateSessionPanicsIff(b: Balances, minted: set<SessionToken>, id: string, t: QuotaToken, checked: int, now: int)
    ensures var (after, all, r) := Login(b, minted, id, t, checked, now);
            && (r == Err(Panic) <==>
                t.genuine && t.usage == CreateSessionUsage && t.quantity > 0
                && (t.expiry == None || checked < t.expiry.value < now))
            && (r == Err(Panic) ==> after == b && all == minted)
  {
  }

  /** Which quota tokens CreateSession redeems, in terms of their claims and the two clock
      readings, and how it refuses the others. */
  lemma TokenAcceptedIff(t: QuotaToken, checked: int, now: int)
    ensures var ours := t.genuine && (t.expiry == None || checked < t.expiry.value) && t.usage == CreateSessionUsage;
            && (TokenStatus(t, checked, now) == Ok(()) <==>
                ours && t.quantity > 0 && t.expiry.Some? && now <= t.expiry.value)
            && (TokenStatus(t, checked, now) == Err(PermissionDenied) <==> !ours)
            && (TokenStatus(t, checked, now) == Err(InvalidArgument) <==> ours && t.quantity <= 0)
  {
  }

  datatype Admission = Unpaid | Paid(session: Session)

  /** The session interceptor up to the call of the next handler.  A session token verifies
      iff the server minted it, so `minted` holds all genuine ones, and it has not expired. */
  function Admit(b: Balances, minted: set<SessionToken>, req: Request, auth: Authorization, now: int)
    : (Balances, Result<Admission>)
  {
    if req.procedure in FREE_PROCEDURES then (b, Ok(Unpaid))
    else if auth.NoBearer? then (b, Err(InvalidArgument))
    else if auth.token !in minted || auth.token.expiry <= now then (b, Err(PermissionDenied))
    else if auth.usage != ManageSessionUsage then (b, Err(PermissionDenied))
    else
      match GetPrice(req)
      case Err(_) => (b, Err(Internal))
      case Ok(price) =>
        var (after, charged) := Deduct(b, auth.token.subject, price);
        match charged
        case Err(_) => (after, Err(Internal))
        case Ok(session) => (after, Ok(Paid(session)))
  }

  /** The header holds a session token the server minted that has not expired. */
  predicate Bears(minted: set<SessionToken>, auth: Authorization, now: int) {
    auth.Bearer? && auth.usage == ManageSessionUsage && auth.token in minted && now < auth.token.expiry
  }

  function BalanceOf(b: Balances, id: string): int {
    if id in b then b[id] else 0
  }

  /** Who is admitted, at what price, and how the others are refused. */
  lemma AdmitIff(b: Balances, minted: set<SessionToken>, req: Request, auth: Authorization, now: int)
    ensures var (after, r) := Admit(b, minted, req, auth, now);
            var price := GetPrice(req);
            && (r == Ok(Unpaid) <==> Free(req.procedure))
            && (r == Err(InvalidArgument) <==> !Free(req.procedure) && auth.NoBearer?)
            && (r == Err(PermissionDenied) <==> !Free(req.procedure) && auth.Bearer? && !Bears(minted, auth, now))
            && (r.Ok? && r.value.Paid? <==>
                && !Free(req.procedure) && Bears(minted, auth, now)
                && price.Ok? && 0 < price.value <= BalanceOf(b, auth.token.subject))
            && (r.Err? ==> r.status in {InvalidArgument, PermissionDenied, Internal})
    ensures var (after, r) := Admit(b, minted, req, auth, now);
            r.Ok? && r.value.Paid? ==>
              var left := BalanceOf(b, auth.token.subject) - GetPrice(req).value;
              r.value.session == Session(auth.token.subject, left) && after == b[auth.token.subject := left]
    ensures var (after, r) := Admit(b, minted, req, auth, now);
            Free(req.procedure) || !Bears(minted, auth, now) ==> after == b
  {
    FreeIff(req.procedure);
  }

  class RedisSessionManager {
    var balances: Balances
    const salt: string
    const hash: (string, string) -> string

    constructor (hash: (string, string) -> string, salt: string)
      ensures balances == map[] && this.salt == salt && this.hash == hash
    {
      balances := map[];
      this.salt := salt;
      this.hash := hash;
    }

    method CreateSession(jti: string, balance: int) returns (session: Session)
      modifies this
      ensures (balances, session) == Open(old(balances), hash(salt, jti), balance)
      ensures var id := hash(salt, jti);
              && session.id == id && id in balances && session.balance == balances[id]
              && balances == if id in old(balances) then old(balances) else old(balances)[id := balance]
    {
      var sessionId := hash(salt, jti);
      if sessionId !in balances {
        balances := balances[sessionId := balance];
        return Session(sessionId, balance);
      }
      return Session(sessionId, balances[sessionId]);
    }

    method DeductSessionBalance(sessionId: string, amount: int) returns (r: Result<Session>)
      modifies this
      ensures (balances, r) == Deduct(old(balances), sessionId, amount)
    {
      if amount <= 0 {
        return Err(Internal);
      }
      var newBalance := (if sessionId in balances then balances[sessionId] else 0) - amount;
      if newBalance < -TWO_63 {
        return Err(Internal);
      }
      balances := balances[sessionId := newBalance];
      if newBalance < 0 {
        return Err(Internal);
      }
      return Ok(Session(sessionId, newBalance));
    }
  }

  /** The tokens minted so far are threaded through as `minted` and `all`. */
  method CreateSessionHandler(m: RedisSessionManager, minted: set<SessionToken>, t: QuotaToken, checked: int, now: int)
    returns (r: Result<Session>, all: set<SessionToken>)
    modifies m
    ensures (m.balances, all, r) == Login(old(m.balances), minted, m.hash(m.salt, t.jti), t, checked, now)
    ensures r.Ok? ==>
              && t.expiry.Some?
              && all == minted + {SessionToken(m.hash(m.salt, t.jti), t.expiry.value)}
              && r.value.id == m.hash(m.salt, t.jti) && r.value.id in m.balances
              && r.value.balance == m.balances[r.value.id]
    ensures r.Err? ==> all == minted && m.balances == old(m.balances)
  {
    if !Verified(t, checked) || t.usage != CreateSessionUsage {
      return Err(PermissionDenied), minted;
    }
    if t.quantity <= 0 {
      return Err(InvalidArgument), minted;
    }
    if t.expiry.None? || t.expiry.value < now {
      return Err(Panic), minted;
    }
    var session := m.CreateSession(t.jti, t.quantity);
    return Ok(session), minted + {SessionToken(session.id, t.expiry.value)};
  }

  /** NewConnectUnarySessionInterceptor, up to the call of `next`. */
  method Intercept(m: RedisSessionManager, minted: set<SessionToken>, req: Request, auth: Authorization, now: int)
    returns (r: Result<Admission>)
    modifies m
    ensures (m.balances, r) == Admit(old(m.balances), minted, req, auth, now)
  {
    for i := 0 to |FREE_PROCEDURES|
      invariant req.procedure !in FREE_PROCEDURES[..i]
      invariant m.balances == old(m.balances)
    {
      if req.procedure == FREE_PROCEDURES[i] {
        return Ok(Unpaid);
      }
    }
    assert FREE_PROCEDURES[..|FREE_PROCEDURES|] == FREE_PROCEDURES;
    if auth.NoBearer? {
      return Err(InvalidArgument);
    }
    if auth.token !in minted || auth.token.expiry <= now {
      return Err(PermissionDenied);
    }
    if auth.usage != ManageSessionUsage {
      return Err(PermissionDenied);
    }
    var price := GetPrice(req);
    if price.Err? {
      return Err(Internal);
    }
    var session := m.DeductSessionBalance(auth.token.subject, price.value);
    if session.Err? {
      return Err(Internal);
    }
    return Ok(Paid(session.value));
  }

  /** An attempt to charge, in the order the DECRBY commands reach Redis. */
  datatype Attempt = Attempt(id: string, amount: int)

  function After(b: Balances, attempts: seq<Attempt>): Balances {
    if attempts == [] then b
    else
      var last := attempts[|attempts| - 1];
      Deduct(After(b, attempts[..|attempts| - 1]), last.id, last.amount).0
  }

  predicate Accepted(b: Balances, attempts: seq<Attempt>, i: nat)
    requires i < |attempts|
  {
    Deduct(After(b, attempts[..i]), attempts[i].id, attempts[i].amount).1.Ok?
  }

  /** The sum of the positive amounts asked of one session. */
  function Asked(attempts: seq<Attempt>, id: string): nat {
    if attempts == [] then 0
    else
      var last := attempts[|attempts| - 1];
      Asked(attempts[..|attempts| - 1], id) + if last.id == id && last.amount > 0 then last.amount else 0
  }

  /** Amounts are Go int64 values. */
  ghost predicate Int64Amounts(attempts: seq<Attempt>) {
    forall a :: a in attempts ==> IsInt64(a.amount)
  }

  lemma {:induction false} BalanceAfter(b: Balances, attempts: seq<Attempt>, id: string)
    requires Int64Amounts(attempts)
    requires id in b ==> 0 <= b[id] < TWO_63
    ensures var granted := if id in b then b[id] else 0;
            var after := After(b, attempts);
            var balance := if id in after then after[id] else 0;
            if Asked(attempts, id) <= granted then balance == granted - Asked(attempts, id)
            else -TWO_63 <= balance < 0
  {
    if attempts != [] {
      BalanceAfter(b, attempts[..|attempts| - 1], id);
      assert attempts[|attempts| - 1] in attempts;
    }
  }

  /** Accepted charges are a longest prefix: whatever other sessions do in between, and even
      when DECRBY fails at the int64 limit, an attempt is accepted exactly when it is positive
      and everything asked of the session up to and including it fits in the grant. */
  lemma AcceptedIffWithinGrant(b: Balances, attempts: seq<Attempt>, i: nat)
    requires i < |attempts| && Int64Amounts(attempts)
    requires attempts[i].id in b ==> 0 <= b[attempts[i].id] < TWO_63
    ensures Accepted(b, attempts, i) <==>
            attempts[i].amount > 0
            && Asked(attempts[..i + 1], attempts[i].id)
               <= (if attempts[i].id in b then b[attempts[i].id] else 0)
  {
    assert attempts[..i + 1][..i] == attempts[..i];
    BalanceAfter(b, attempts[..i], attempts[i].id);
  }

  lemma {:induction false} AskedGrows(attempts: seq<Attempt>, id: string, i: nat, j: nat)
    requires i <= j <= |attempts|
    ensures Asked(attempts[..i], id) <= Asked(attempts[..j], id)
    decreases j - i
  {
    if i < j {
      AskedGrows(attempts, id, i, j - 1);
      assert attempts[..j][..j - 1] == attempts[..j - 1];
    }
  }

  /** One refusal of a positive charge makes every later charge on that session refused. */
  lemma RefusalIsFinal(b: Balances, attempts: seq<Attempt>, i: nat, j: nat)
    requires i < j < |attempts| && attempts[i].id == attempts[j].id && Int64Amounts(attempts)
    requires attempts[i].id in b ==> 0 <= b[attempts[i].id] < TWO_63
    requires attempts[i].amount > 0 && !Accepted(b, attempts, i)
    ensures !Accepted(b, attempts, j)
  {
    AcceptedIffWithinGrant(b, attempts, i);
    AcceptedIffWithinGrant(b, attempts, j);
    AskedGrows(attempts, attempts[i].id, i + 1, j + 1);
  }
}

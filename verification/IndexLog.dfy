/** The provider index against the plain thing it speeds up: a log of accepted
    registrations.  Every structure of the index is a function of the log. */
module IndexLog {
  import opened Common
  import opened ProviderIndex
  import Z = SortedSets

  datatype Registration = Registration(time: int, stamp: int, ad: Advertisement)

  datatype Event =
    | Submit(ad: Advertisement, stamp: int)
    | Advance(millis: nat)

  datatype World = World(store: Store, log: seq<Registration>)

  function Step(env: Env, w: World, e: Event): World {
    match e
    case Submit(ad, stamp) =>
      if Accepts(env, ad) then
        World(Register(env, w.store, ad, stamp), w.log + [Registration(w.store.now, stamp, ad)])
      else w
    case Advance(millis) => w.(store := w.store.(now := w.store.now + millis))
  }

  /** Any run of submissions and clock advances from the empty index. */
  function Run(env: Env, start: int, events: seq<Event>): World {
    if events == [] then World(Store(start, map[], map[], map[], map[], map[]), [])
    else Step(env, Run(env, start, events[..|events| - 1]), events[|events| - 1])
  }

  lemma RunMore(env: Env, start: int, events: seq<Event>, e: Event)
    ensures Run(env, start, events + [e]) == Step(env, Run(env, start, events), e)
  {
    assert (events + [e])[..|events|] == events;
  }

  /** Which registrations a key of the index depends on. */
  datatype Selector = OfProvider(did: string) | OfService(hash: string) | OfListing(hash: string, cid: string)

  predicate Selects(env: Env, sel: Selector, r: Registration) {
    match sel
    case OfProvider(did) => r.ad.provider.did == did
    case OfService(h) => env.serviceHash(r.ad.service) == h
    case OfListing(h, c) => env.serviceHash(r.ad.service) == h && c in r.ad.cids
  }

  /** The position of the last selected registration, or -1. */
  function Latest(env: Env, log: seq<Registration>, sel: Selector): (k: int)
    ensures -1 <= k < |log|
    ensures k >= 0 ==> Selects(env, sel, log[k])
    ensures forall i :: k < i < |log| ==> !Selects(env, sel, log[i])
  {
    if log == [] then -1
    else if Selects(env, sel, log[|log| - 1]) then |log| - 1
    else Latest(env, log[..|log| - 1], sel)
  }

  lemma LatestAfter(env: Env, log: seq<Registration>, r: Registration, sel: Selector)
    ensures Latest(env, log + [r], sel) == if Selects(env, sel, r) then |log| else Latest(env, log, sel)
  {
    assert (log + [r])[..|log|] == log;
  }

  predicate Registers(env: Env, r: Registration, h: string) {
    Selects(env, OfService(h), r)
  }

  /** Registration `k` of the service found one at or after `i` still alive. */
  ghost predicate FoundAlive(env: Env, log: seq<Registration>, h: string, i: int, k: int)
    requires 0 <= i < k < |log|
  {
    exists j :: i <= j < k && Registers(env, log[j], h)
                && Alive(log[k].time, log[j].time + DEFAULT_TTL)
  }

  /** From registration `i` on, the service never went a full DEFAULT_TTL without being
      registered again. */
  ghost predicate Unbroken(env: Env, log: seq<Registration>, h: string, i: int)
    requires 0 <= i
  {
    forall k {:trigger FoundAlive(env, log, h, i, k)} ::
      i < k < |log| && Registers(env, log[k], h) ==> FoundAlive(env, log, h, i, k)
  }

  /** Registration `i` is `did` registering `h` in the service's latest unbroken streak. */
  ghost predicate InStreak(env: Env, log: seq<Registration>, h: string, did: string, i: int) {
    && 0 <= i < |log|
    && Registers(env, log[i], h)
    && log[i].ad.provider.did == did
    && Unbroken(env, log, h, i)
  }

  /** The registrations of `h` by `did` in the service's latest unbroken streak. */
  ghost function Streak(env: Env, log: seq<Registration>, h: string, did: string): (r: set<int>)
    ensures forall i :: i in r ==> 0 <= i < |log|
  {
    set i | 0 <= i < |log| && InStreak(env, log, h, did, i)
  }

  /** All registrations of `h`, by anyone, in the service's latest unbroken streak. */
  ghost function ServiceStreak(env: Env, log: seq<Registration>, h: string): (r: set<int>)
    ensures forall i :: i in r ==> 0 <= i < |log|
  {
    set i | 0 <= i < |log| && InStreak(env, log, h, log[i].ad.provider.did, i)
  }

  /** Some registration at `places` lists `c`. */
  ghost predicate ListedAt(log: seq<Registration>, places: set<int>, c: string)
    requires forall i :: i in places ==> 0 <= i < |log|
  {
    exists i :: i in places && c in log[i].ad.cids
  }

  /** `score` is the largest stamp among the registrations at `places`. */
  ghost predicate IsTopStamp(log: seq<Registration>, places: set<int>, score: int)
    requires forall i :: i in places ==> 0 <= i < |log|
  {
    && (exists i :: i in places && log[i].stamp == score)
    && (forall i :: i in places ==> log[i].stamp <= score)
  }

  ghost predicate Chronological(log: seq<Registration>, now: int) {
    && (forall i, j :: 0 <= i <= j < |log| ==> log[i].time <= log[j].time)
    && (forall i :: 0 <= i < |log| ==> log[i].time <= now)
  }

  ghost predicate AdAgrees(env: Env, st: Store, log: seq<Registration>, did: string) {
    var k := Latest(env, log, OfProvider(did));
    && (did in st.ads <==> k >= 0)
    && (k >= 0 ==> st.ads[did] == Cell(log[k].ad, log[k].time + DEFAULT_TTL))
  }

  /** `vsvc:cid:h` holds the CIDs of every registration in the streak. */
  ghost predicate CidsAgree(env: Env, st: Store, log: seq<Registration>, h: string) {
    var k := Latest(env, log, OfService(h));
    && (h in st.serviceCids <==> k >= 0)
    && (k >= 0 ==>
          && st.serviceCids[h].expiry == log[k].time + DEFAULT_TTL
          && forall c :: c in st.serviceCids[h].value <==> ListedAt(log, ServiceStreak(env, log, h), c))
  }

  ghost predicate DetailAgrees(env: Env, st: Store, log: seq<Registration>, h: string) {
    var k := Latest(env, log, OfService(h));
    && (h in st.details <==> k >= 0)
    && (k >= 0 ==> st.details[h] == Cell(log[k].ad.service, log[k].time + DEFAULT_TTL))
  }

  ghost predicate ProvidersAgree(env: Env, st: Store, log: seq<Registration>, h: string) {
    var k := Latest(env, log, OfService(h));
    && (h in st.providers <==> k >= 0)
    && (k >= 0 ==>
          && st.providers[h].expiry == log[k].time + DEFAULT_TTL
          && Z.Valid(st.providers[h].value)
          && (forall did :: Z.Has(st.providers[h].value, did) <==> Streak(env, log, h, did) != {})
          && (forall x :: x in st.providers[h].value ==>
                IsTopStamp(log, Streak(env, log, h, x.member), x.score)))
  }

  ghost predicate ListingAgrees(env: Env, st: Store, log: seq<Registration>, h: string, c: string) {
    var k := Latest(env, log, OfListing(h, c));
    && (h in Fields(st.cidServices, c) <==> k >= 0)
    && (k >= 0 ==> Fields(st.cidServices, c)[h] == log[k].time + DEFAULT_TTL)
  }

  /** The index says what the log says. */
  ghost predicate Agree(env: Env, st: Store, log: seq<Registration>) {
    && Chronological(log, st.now)
    && (forall i :: 0 <= i < |log| ==> Accepts(env, log[i].ad))
    && (forall did :: AdAgrees(env, st, log, did))
    && (forall h :: CidsAgree(env, st, log, h))
    && (forall h :: DetailAgrees(env, st, log, h))
    && (forall h :: ProvidersAgree(env, st, log, h))
    && (forall h, c :: ListingAgrees(env, st, log, h, c))
  }

  lemma FoundAliveKept(env: Env, log: seq<Registration>, r: Registration, h: string, i: int, k: int)
    requires 0 <= i < k < |log|
    ensures FoundAlive(env, log + [r], h, i, k) <==> FoundAlive(env, log, h, i, k)
  {
    var longer := log + [r];
    assert forall j :: 0 <= j < |log| ==> longer[j] == log[j];
    if FoundAlive(env, log, h, i, k) {
      var j :| i <= j < k && Registers(env, log[j], h) && Alive(log[k].time, log[j].time + DEFAULT_TTL);
      assert Registers(env, longer[j], h);
    }
    if FoundAlive(env, longer, h, i, k) {
      var j :| i <= j < k && Registers(env, longer[j], h) && Alive(longer[k].time, longer[j].time + DEFAULT_TTL);
      assert Registers(env, log[j], h);
    }
  }

  lemma NewFoundAlive(env: Env, log: seq<Registration>, r: Registration, h: string, i: int)
    requires Chronological(log, r.time)
    requires 0 <= i < |log| && FoundAlive(env, log + [r], h, i, |log|)
    ensures var last := Latest(env, log, OfService(h));
            last >= i && Alive(r.time, log[last].time + DEFAULT_TTL)
  {
    var longer := log + [r];
    var j :| i <= j < |log| && Registers(env, longer[j], h)
             && Alive(longer[|log|].time, longer[j].time + DEFAULT_TTL);
    assert longer[j] == log[j] && longer[|log|] == r;
    assert Selects(env, OfService(h), log[j]);
    assert log[j].time <= log[Latest(env, log, OfService(h))].time;
  }

  lemma NewFindsAlive(env: Env, log: seq<Registration>, r: Registration, h: string, i: int)
    requires 0 <= i < |log| && Registers(env, log[i], h)
    requires Alive(r.time, log[Latest(env, log, OfService(h))].time + DEFAULT_TTL)
    ensures FoundAlive(env, log + [r], h, i, |log|)
  {
    var longer := log + [r];
    var last := Latest(env, log, OfService(h));
    assert Selects(env, OfService(h), log[i]);
    assert longer[last] == log[last] && longer[|log|] == r;
    assert Registers(env, longer[last], h);
  }

  lemma NewFindsAliveIff(env: Env, log: seq<Registration>, r: Registration, h: string, i: int)
    requires Chronological(log, r.time)
    requires 0 <= i < |log| && Registers(env, log[i], h)
    ensures var last := Latest(env, log, OfService(h));
            last >= i
            && (FoundAlive(env, log + [r], h, i, |log|) <==> Alive(r.time, log[last].time + DEFAULT_TTL))
  {
    assert Selects(env, OfService(h), log[i]);
    if Alive(r.time, log[Latest(env, log, OfService(h))].time + DEFAULT_TTL) {
      NewFindsAlive(env, log, r, h, i);
    } else if FoundAlive(env, log + [r], h, i, |log|) {
      NewFoundAlive(env, log, r, h, i);
    }
  }

  lemma UnbrokenAfter(env: Env, log: seq<Registration>, r: Registration, h: string, i: int)
    requires Chronological(log, r.time)
    requires 0 <= i < |log| && Registers(env, log[i], h)
    ensures Unbroken(env, log + [r], h, i) <==>
            Unbroken(env, log, h, i) &&
            (Registers(env, r, h) ==>
               Alive(r.time, log[Latest(env, log, OfService(h))].time + DEFAULT_TTL))
  {
    var longer := log + [r];
    NewFindsAliveIff(env, log, r, h, i);
    forall k | i < k < |log|
      ensures longer[k] == log[k]
              && (FoundAlive(env, longer, h, i, k) <==> FoundAlive(env, log, h, i, k))
    {
      FoundAliveKept(env, log, r, h, i, k);
    }
    assert longer[|log|] == r;
  }

  /** How appending a registration changes the streak of a service. */
  lemma StreakAfter(env: Env, log: seq<Registration>, r: Registration, h: string, did: string, i: int)
    requires Chronological(log, r.time)
    requires 0 <= i < |log|
    ensures InStreak(env, log + [r], h, did, i) <==>
            InStreak(env, log, h, did, i) &&
            (Registers(env, r, h) ==>
               Alive(r.time, log[Latest(env, log, OfService(h))].time + DEFAULT_TTL))
  {
    if Registers(env, log[i], h) {
      UnbrokenAfter(env, log, r, h, i);
    }
  }

  /** The new registration itself starts or joins the streak of its own service only. */
  lemma StreakOfNew(env: Env, log: seq<Registration>, r: Registration, h: string, did: string)
    ensures InStreak(env, log + [r], h, did, |log|) <==>
            Registers(env, r, h) && r.ad.provider.did == did
  {
  }

  lemma OtherServiceUntouched(env: Env, log: seq<Registration>, r: Registration, h: string, did: string)
    requires Chronological(log, r.time) && !Registers(env, r, h)
    ensures Streak(env, log + [r], h, did) == Streak(env, log, h, did)
  {
    forall i ensures i in Streak(env, log + [r], h, did) <==> i in Streak(env, log, h, did) {
      StreakOfNew(env, log, r, h, did);
      if 0 <= i < |log| {
        StreakAfter(env, log, r, h, did, i);
      }
    }
  }

  /** What remains of a streak when the service is registered at `time`: all of it while the
      service is alive, nothing once it has expired or before it is known. */
  ghost function Carried(env: Env, log: seq<Registration>, time: int, h: string, did: string): (r: set<int>)
    ensures forall i :: i in r ==> 0 <= i < |log|
  {
    var k := Latest(env, log, OfService(h));
    if k >= 0 && Alive(time, log[k].time + DEFAULT_TTL) then Streak(env, log, h, did) else {}
  }

  lemma StreakGrowsAt(env: Env, log: seq<Registration>, r: Registration, h: string, did: string, i: int)
    requires Chronological(log, r.time) && Registers(env, r, h)
    ensures InStreak(env, log + [r], h, did, i) <==>
            i in Carried(env, log, r.time, h, did) || (did == r.ad.provider.did && i == |log|)
  {
    var k := Latest(env, log, OfService(h));
    if i < 0 || i > |log| {
    } else if i == |log| {
      StreakOfNew(env, log, r, h, did);
    } else {
      StreakAfter(env, log, r, h, did, i);
      if InStreak(env, log, h, did, i) {
        assert Selects(env, OfService(h), log[i]);
        assert i in Streak(env, log, h, did);
      } else {
        assert i !in Streak(env, log, h, did);
      }
    }
  }

  /** A registration joins whatever streak its service still has. */
  lemma StreakGrows(env: Env, log: seq<Registration>, r: Registration, h: string, did: string)
    requires Chronological(log, r.time) && Registers(env, r, h)
    ensures Streak(env, log + [r], h, did) ==
            Carried(env, log, r.time, h, did) + (if did == r.ad.provider.did then {|log|} else {})
  {
    forall i ensures InStreak(env, log + [r], h, did, i) <==>
                     i in Carried(env, log, r.time, h, did) || (did == r.ad.provider.did && i == |log|)
    {
      StreakGrowsAt(env, log, r, h, did, i);
    }
  }

  lemma TopStampGrows(log: seq<Registration>, r: Registration, places: set<int>, score: int)
    requires forall i :: i in places ==> 0 <= i < |log|
    requires IsTopStamp(log, places, score)
    ensures IsTopStamp(log + [r], places, score)
    ensures IsTopStamp(log + [r], places + {|log|}, if score < r.stamp then r.stamp else score)
  {
    var i :| i in places && log[i].stamp == score;
    assert (log + [r])[i].stamp == score && (log + [r])[|log|] == r;
    assert i in places + {|log|} && |log| in places + {|log|};
  }

  lemma ProvidersAfter(env: Env, st: Store, log: seq<Registration>, ad: Advertisement, stamp: int, h: string)
    requires Chronological(log, st.now)
    requires ProvidersAgree(env, st, log, h)
    ensures ProvidersAgree(env, Register(env, st, ad, stamp), log + [Registration(st.now, stamp, ad)], h)
  {
    var r := Registration(st.now, stamp, ad);
    LatestAfter(env, log, r, OfService(h));
    if Registers(env, r, h) {
      RankingAfter(env, st, log, r, h);
    } else if h in st.providers {
      forall did ensures Streak(env, log + [r], h, did) == Streak(env, log, h, did) {
        OtherServiceUntouched(env, log, r, h, did);
      }
      forall x | x in st.providers[h].value
        ensures IsTopStamp(log + [r], Streak(env, log + [r], h, x.member), x.score)
      {
        TopStampGrows(log, r, Streak(env, log, h, x.member), x.score);
      }
    }
  }

  lemma RankingAfter(env: Env, st: Store, log: seq<Registration>, r: Registration, h: string)
    requires Chronological(log, st.now)
    requires ProvidersAgree(env, st, log, h) && r.time == st.now && Registers(env, r, h)
    ensures var z := Register(env, st, r.ad, r.stamp).providers[h].value;
            && Z.Valid(z)
            && (forall did :: Z.Has(z, did) <==> Streak(env, log + [r], h, did) != {})
            && (forall x :: x in z ==> IsTopStamp(log + [r], Streak(env, log + [r], h, x.member), x.score))
  {
    var z := Readable(st.providers, h, st.now, []);
    Z.AddGTMeaning(z, r.ad.provider.did, r.stamp);
    var z' := Z.AddGT(z, r.ad.provider.did, r.stamp);
    forall d ensures Z.Has(z', d) <==> Streak(env, log + [r], h, d) != {} {
      StreakGrows(env, log, r, h, d);
      MembersAfter(env, st, log, r, h, d);
    }
    forall x | x in z' ensures IsTopStamp(log + [r], Streak(env, log + [r], h, x.member), x.score) {
      StreakGrows(env, log, r, h, x.member);
      ScoreAfterIsTop(env, st, log, r, h, x);
    }
  }

  lemma MembersAfter(env: Env, st: Store, log: seq<Registration>, r: Registration, h: string, did: string)
    requires ProvidersAgree(env, st, log, h)
    ensures Z.Has(Z.AddGT(Readable(st.providers, h, st.now, []), r.ad.provider.did, r.stamp), did) <==>
            Carried(env, log, st.now, h, did) + (if did == r.ad.provider.did then {|log|} else {}) != {}
  {
    var z := Readable(st.providers, h, st.now, []);
    var z' := Z.AddGT(z, r.ad.provider.did, r.stamp);
    Z.AddGTMeaning(z, r.ad.provider.did, r.stamp);
    assert Z.Has(z, did) <==> Carried(env, log, st.now, h, did) != {};
    if did == r.ad.provider.did {
      assert Z.Entry(Z.ScoreAfter(z, did, r.stamp), did) in z';
      assert |log| in Carried(env, log, st.now, h, did) + {|log|};
    } else {
      assert Z.Has(z', did) <==> Z.Has(z, did);
    }
  }

  lemma ScoreAfterIsTop(env: Env, st: Store, log: seq<Registration>, r: Registration, h: string, x: Z.Entry)
    requires ProvidersAgree(env, st, log, h)
    requires var z := Readable(st.providers, h, st.now, []);
             if x.member == r.ad.provider.did
             then x.score == Z.ScoreAfter(z, x.member, r.stamp) else x in z
    ensures IsTopStamp(log + [r],
                       Carried(env, log, st.now, h, x.member)
                       + (if x.member == r.ad.provider.did then {|log|} else {}),
                       x.score)
  {
    var z := Readable(st.providers, h, st.now, []);
    var held := Carried(env, log, st.now, h, x.member);
    if x.member != r.ad.provider.did {
      TopStampGrows(log, r, held, x.score);
      assert held + {} == held;
    } else {
      match Z.Find(z, x.member) {
        case None =>
          assert !Z.Has(z, x.member);
          assert held == {};
          assert (log + [r])[|log|] == r && |log| in held + {|log|};
        case Some(score) =>
          TopStampGrows(log, r, held, score);
      }
    }
  }

  /** What remains of the whole streak when the service is registered at `time`. */
  ghost function CarriedAll(env: Env, log: seq<Registration>, time: int, h: string): (r: set<int>)
    ensures forall i :: i in r ==> 0 <= i < |log|
  {
    var k := Latest(env, log, OfService(h));
    if k >= 0 && Alive(time, log[k].time + DEFAULT_TTL) then ServiceStreak(env, log, h) else {}
  }

  lemma ServiceStreakAfter(env: Env, log: seq<Registration>, r: Registration, h: string)
    requires Chronological(log, r.time)
    ensures ServiceStreak(env, log + [r], h) ==
            if Registers(env, r, h) then CarriedAll(env, log, r.time, h) + {|log|} else ServiceStreak(env, log, h)
  {
    var k := Latest(env, log, OfService(h));
    var longer := log + [r];
    assert longer[|log|] == r;
    StreakOfNew(env, log, r, h, r.ad.provider.did);
    forall i | 0 <= i < |log|
      ensures i in ServiceStreak(env, longer, h) <==>
              i in ServiceStreak(env, log, h)
              && (Registers(env, r, h) ==> k >= 0 && Alive(r.time, log[k].time + DEFAULT_TTL))
    {
      assert longer[i] == log[i];
      StreakAfter(env, log, r, h, log[i].ad.provider.did, i);
      assert Registers(env, log[i], h) ==> Selects(env, OfService(h), log[i]);
    }
  }

  lemma HeldIsCarried(env: Env, st: Store, log: seq<Registration>, h: string, c: string)
    requires CidsAgree(env, st, log, h)
    ensures c in Readable(st.serviceCids, h, st.now, {}) <==> ListedAt(log, CarriedAll(env, log, st.now, h), c)
  {
  }

  /** The CIDs of its own service a registration leaves: those it finds and those it lists. */
  lemma OwnCidsAfter(env: Env, st: Store, log: seq<Registration>, r: Registration, h: string, c: string)
    requires Chronological(log, st.now) && CidsAgree(env, st, log, h)
    requires r.time == st.now && Registers(env, r, h)
    ensures ListedAt(log + [r], ServiceStreak(env, log + [r], h), c) <==>
            c in Readable(st.serviceCids, h, st.now, {}) || c in r.ad.cids
  {
    ServiceStreakAfter(env, log, r, h);
    ListedAfter(log, r, CarriedAll(env, log, r.time, h), c);
    HeldIsCarried(env, st, log, h, c);
  }

  lemma CidsAfter(env: Env, st: Store, log: seq<Registration>, ad: Advertisement, stamp: int, h: string)
    requires Chronological(log, st.now) && CidsAgree(env, st, log, h)
    ensures CidsAgree(env, Register(env, st, ad, stamp), log + [Registration(st.now, stamp, ad)], h)
  {
    var r := Registration(st.now, stamp, ad);
    LatestAfter(env, log, r, OfService(h));
    if Registers(env, r, h) {
      forall c ensures c in Register(env, st, ad, stamp).serviceCids[h].value <==>
                       ListedAt(log + [r], ServiceStreak(env, log + [r], h), c) {
        OwnCidsAfter(env, st, log, r, h, c);
      }
    } else {
      ServiceStreakAfter(env, log, r, h);
      forall c ensures ListedAt(log + [r], ServiceStreak(env, log, h), c) <==>
                       ListedAt(log, ServiceStreak(env, log, h), c) {
        ListedAfter(log, r, ServiceStreak(env, log, h), c);
      }
    }
  }

  lemma ListedAfter(log: seq<Registration>, r: Registration, places: set<int>, c: string)
    requires forall i :: i in places ==> 0 <= i < |log|
    ensures ListedAt(log + [r], places, c) <==> ListedAt(log, places, c)
    ensures ListedAt(log + [r], places + {|log|}, c) <==> ListedAt(log, places, c) || c in r.ad.cids
  {
    var longer := log + [r];
    assert forall i :: i in places ==> longer[i] == log[i];
    assert longer[|log|] == r && |log| in places + {|log|};
    if ListedAt(log, places, c) {
      var i :| i in places && c in log[i].ad.cids;
      assert i in places + {|log|} && c in longer[i].ad.cids;
    }
  }

  lemma AdAfter(env: Env, st: Store, log: seq<Registration>, ad: Advertisement, stamp: int, did: string)
    requires AdAgrees(env, st, log, did)
    ensures AdAgrees(env, Register(env, st, ad, stamp), log + [Registration(st.now, stamp, ad)], did)
  {
    LatestAfter(env, log, Registration(st.now, stamp, ad), OfProvider(did));
  }

  lemma DetailAfter(env: Env, st: Store, log: seq<Registration>, ad: Advertisement, stamp: int, h: string)
    requires DetailAgrees(env, st, log, h)
    ensures DetailAgrees(env, Register(env, st, ad, stamp), log + [Registration(st.now, stamp, ad)], h)
  {
    LatestAfter(env, log, Registration(st.now, stamp, ad), OfService(h));
  }

  lemma ListingAfter(env: Env, st: Store, log: seq<Registration>, ad: Advertisement, stamp: int, h: string, c: string)
    requires ListingAgrees(env, st, log, h, c)
    ensures ListingAgrees(env, Register(env, st, ad, stamp), log + [Registration(st.now, stamp, ad)], h, c)
  {
    LatestAfter(env, log, Registration(st.now, stamp, ad), OfListing(h, c));
  }

  lemma RegisterAgrees(env: Env, st: Store, log: seq<Registration>, ad: Advertisement, stamp: int)
    requires Agree(env, st, log) && Accepts(env, ad)
    ensures Agree(env, Register(env, st, ad, stamp), log + [Registration(st.now, stamp, ad)])
  {
    var longer := log + [Registration(st.now, stamp, ad)];
    var after := Register(env, st, ad, stamp);
    forall did ensures AdAgrees(env, after, longer, did) {
      AdAfter(env, st, log, ad, stamp, did);
    }
    forall h ensures CidsAgree(env, after, longer, h) {
      CidsAfter(env, st, log, ad, stamp, h);
    }
    forall h ensures DetailAgrees(env, after, longer, h) {
      DetailAfter(env, st, log, ad, stamp, h);
    }
    forall h ensures ProvidersAgree(env, after, longer, h) {
      ProvidersAfter(env, st, log, ad, stamp, h);
    }
    forall h, c ensures ListingAgrees(env, after, longer, h, c) {
      ListingAfter(env, st, log, ad, stamp, h, c);
    }
  }

  lemma StepAgrees(env: Env, w: World, e: Event)
    requires Agree(env, w.store, w.log)
    ensures var next := Step(env, w, e); Agree(env, next.store, next.log)
  {
    match e {
      case Submit(ad, stamp) =>
        if Accepts(env, ad) {
          RegisterAgrees(env, w.store, w.log, ad, stamp);
        }
      case Advance(millis) =>
        AdvanceAgrees(env, w.store, w.log, millis);
    }
  }

  /** In every run, whatever is registered and however the clock moves, the five structures
      with their separate expiries are exactly what the log of registrations determines. */
  lemma {:induction false} EveryRunAgrees(env: Env, start: int, events: seq<Event>)
    ensures var w := Run(env, start, events); Agree(env, w.store, w.log)
  {
    if events != [] {
      var before := Run(env, start, events[..|events| - 1]);
      EveryRunAgrees(env, start, events[..|events| - 1]);
      StepAgrees(env, before, events[|events| - 1]);
    }
  }

  lemma AdvanceAgrees(env: Env, st: Store, log: seq<Registration>, millis: nat)
    requires Agree(env, st, log)
    ensures Agree(env, st.(now := st.now + millis), log)
  {
    var after := st.(now := st.now + millis);
    forall did ensures AdAgrees(env, after, log, did) {
      assert AdAgrees(env, st, log, did);
    }
    forall h ensures CidsAgree(env, after, log, h) {
      assert CidsAgree(env, st, log, h);
    }
    forall h ensures DetailAgrees(env, after, log, h) && ProvidersAgree(env, after, log, h) {
      assert DetailAgrees(env, st, log, h) && ProvidersAgree(env, st, log, h);
    }
    forall h, c ensures ListingAgrees(env, after, log, h, c) {
      assert ListingAgrees(env, st, log, h, c);
    }
  }
}

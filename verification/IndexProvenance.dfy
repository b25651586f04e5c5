/** What rests on the root check and on the spelling of CIDs: when the forward and the inverse
    index are each other's converse, and where search results come from. */
module IndexProvenance {
  import opened Common
  import opened Cids
  import opened ProviderIndex
  import opened IndexLog
  import opened IndexSearch
  import Z = SortedSets

  ghost predicate CollisionFree(env: Env) {
    && (forall a, b :: env.serviceHash(a) == env.serviceHash(b) ==> a == b)
    && (forall a, b :: env.merkleRoot(a) == env.merkleRoot(b) ==> a == b)
  }

  lemma {:induction false} DecodeAllPointwise(codec: Codec, cids: seq<string>)
    requires DecodeAll(codec, cids).Some?
    ensures var ds := DecodeAll(codec, cids).value;
            |ds| == |cids| && forall i :: 0 <= i < |cids| ==> codec.decode(cids[i]) == Some(ds[i])
  {
    if cids != [] {
      DecodeAllPointwise(codec, cids[..|cids| - 1]);
    }
  }

  ghost predicate CanonicalAd(env: Env, ad: Advertisement) {
    forall c :: c in ad.cids ==> Canonical(env.codec, c)
  }

  /** The root check makes all advertisements of a service list the same CIDs in the same
      order, whatever their spellings; canonical spellings are then the same too. */
  lemma SameServiceSameCids(env: Env, a: Advertisement, b: Advertisement)
    requires CollisionFree(env) && Accepts(env, a) && Accepts(env, b)
    requires env.serviceHash(a.service) == env.serviceHash(b.service)
    ensures |a.cids| == |b.cids|
    ensures forall i :: 0 <= i < |a.cids| ==>
              env.codec.decode(a.cids[i]).Some? && env.codec.decode(a.cids[i]) == env.codec.decode(b.cids[i])
    ensures CanonicalAd(env, a) && CanonicalAd(env, b) ==> a.cids == b.cids
  {
    DecodeAllPointwise(env.codec, a.cids);
    DecodeAllPointwise(env.codec, b.cids);
    assert env.merkleRoot(DecodeAll(env.codec, a.cids).value)
        == env.merkleRoot(DecodeAll(env.codec, b.cids).value);
    if CanonicalAd(env, a) && CanonicalAd(env, b) {
      forall i | 0 <= i < |a.cids| ensures a.cids[i] == b.cids[i] {
        CanonicalIsUnique(env.codec, a.cids[i], b.cids[i]);
      }
    }
  }

  // ---------- The two directions of the index ----------

  /** Any two accepted advertisements of one service, among `ads`, list the same strings. */
  ghost predicate SameStrings(env: Env, ads: iset<Advertisement>) {
    forall a, b :: a in ads && b in ads && Accepts(env, a) && Accepts(env, b)
                   && env.serviceHash(a.service) == env.serviceHash(b.service) ==>
      Elements(a.cids) == Elements(b.cids)
  }

  ghost predicate Submits(events: seq<Event>, ads: iset<Advertisement>) {
    forall e :: e in events && e.Submit? ==> e.ad in ads
  }

  ghost predicate LogOf(env: Env, log: seq<Registration>, ads: iset<Advertisement>) {
    forall i :: 0 <= i < |log| ==> log[i].ad in ads && Accepts(env, log[i].ad)
  }

  lemma {:induction false} RunLogs(env: Env, start: int, events: seq<Event>, ads: iset<Advertisement>)
    requires Submits(events, ads)
    ensures LogOf(env, Run(env, start, events).log, ads)
  {
    if events != [] {
      RunLogs(env, start, events[..|events| - 1], ads);
      assert events[|events| - 1] in events;
    }
  }

  ghost predicate Lists(env: Env, log: seq<Registration>, h: string, c: string) {
    exists i :: 0 <= i < |log| && Registers(env, log[i], h) && c in log[i].ad.cids
  }

  predicate UnderCid(st: Store, h: string, c: string) {
    h in Fields(st.cidServices, c) && Alive(st.now, Fields(st.cidServices, c)[h])
  }

  predicate UnderService(st: Store, h: string, c: string) {
    h in st.serviceCids && Alive(st.now, st.serviceCids[h].expiry) && c in st.serviceCids[h].value
  }

  predicate Described(st: Store, h: string) {
    && h in st.details && Alive(st.now, st.details[h].expiry)
    && h in st.providers && Alive(st.now, st.providers[h].expiry)
  }

  /** `h` is live under `cid:vsvc:c` iff `c` is live under `vsvc:cid:h` iff the service's details
      and providers are live and its advertisements list `c`; the four keys then expire
      together. */
  ghost predicate IsConverse(env: Env, w: World, h: string, c: string) {
    && (UnderCid(w.store, h, c) <==> UnderService(w.store, h, c))
    && (UnderCid(w.store, h, c) <==> Described(w.store, h) && Lists(env, w.log, h, c))
    && (UnderCid(w.store, h, c) && UnderService(w.store, h, c) && Described(w.store, h) ==>
          Fields(w.store.cidServices, c)[h] == w.store.serviceCids[h].expiry
          == w.store.details[h].expiry == w.store.providers[h].expiry)
  }

  lemma ListedLatest(env: Env, log: seq<Registration>, ads: iset<Advertisement>, h: string, c: string)
    requires SameStrings(env, ads) && LogOf(env, log, ads)
    ensures var k := Latest(env, log, OfService(h));
            Latest(env, log, OfListing(h, c)) == if Lists(env, log, h, c) then k else -1
    ensures var k := Latest(env, log, OfService(h));
            Lists(env, log, h, c) <==> k >= 0 && c in log[k].ad.cids
  {
    var k := Latest(env, log, OfService(h));
    var m := Latest(env, log, OfListing(h, c));
    if Lists(env, log, h, c) {
      var i :| 0 <= i < |log| && Registers(env, log[i], h) && c in log[i].ad.cids;
      assert Selects(env, OfService(h), log[i]);
      assert c in Elements(log[i].ad.cids) && c in Elements(log[k].ad.cids);
      assert Selects(env, OfListing(h, c), log[k]);
    } else if m >= 0 {
      assert Registers(env, log[m], h);
    } else if k >= 0 {
      assert Registers(env, log[k], h);
    }
  }

  /** The streak lists what the service lists. */
  lemma StreakListsAll(env: Env, log: seq<Registration>, ads: iset<Advertisement>, h: string, c: string)
    requires SameStrings(env, ads) && LogOf(env, log, ads)
    ensures ListedAt(log, ServiceStreak(env, log, h), c) <==> Lists(env, log, h, c)
  {
    ListedLatest(env, log, ads, h, c);
    var k := Latest(env, log, OfService(h));
    if Lists(env, log, h, c) {
      assert Selects(env, OfService(h), log[k]);
      assert forall i :: k < i < |log| ==> !Selects(env, OfService(h), log[i]);
      assert k in ServiceStreak(env, log, h);
    }
    if ListedAt(log, ServiceStreak(env, log, h), c) {
      var i :| i in ServiceStreak(env, log, h) && c in log[i].ad.cids;
      assert Registers(env, log[i], h);
    }
  }

  lemma SameStringsMakeConverse(env: Env, ads: iset<Advertisement>, start: int, events: seq<Event>,
                                h: string, c: string)
    requires SameStrings(env, ads) && Submits(events, ads)
    ensures IsConverse(env, Run(env, start, events), h, c)
  {
    var w := Run(env, start, events);
    EveryRunAgrees(env, start, events);
    RunLogs(env, start, events, ads);
    ListedLatest(env, w.log, ads, h, c);
    StreakListsAll(env, w.log, ads, h, c);
    assert CidsAgree(env, w.store, w.log, h) && DetailAgrees(env, w.store, w.log, h);
    assert ProvidersAgree(env, w.store, w.log, h) && ListingAgrees(env, w.store, w.log, h, c);
  }

  /** One registration of `a`, then one of `b`, then just under the time at which what only `a`
      listed expires. */
  function TwoRegistrations(a: Advertisement, b: Advertisement): seq<Event> {
    [Submit(a, 0), Advance(1), Submit(b, 1), Advance(DEFAULT_TTL)]
  }

  lemma RunFour(env: Env, start: int, e: seq<Event>)
    requires |e| == 4
    ensures Run(env, start, e) ==
            Step(env, Step(env, Step(env, Step(env, Run(env, start, []), e[0]), e[1]), e[2]), e[3])
  {
    RunMore(env, start, [], e[0]);
    RunMore(env, start, [e[0]], e[1]);
    RunMore(env, start, [e[0]] + [e[1]], e[2]);
    RunMore(env, start, [e[0]] + [e[1]] + [e[2]], e[3]);
    assert [] + [e[0]] == [e[0]] && [e[0]] + [e[1]] + [e[2]] + [e[3]] == e;
  }

  lemma FirstListing(env: Env, st: Store, ad: Advertisement, c: string)
    requires c in ad.cids
    ensures var h := env.serviceHash(ad.service);
            var after := Register(env, st, ad, 0);
            && c in after.serviceCids[h].value && after.serviceCids[h].expiry == st.now + DEFAULT_TTL
            && h in Fields(after.cidServices, c) && Fields(after.cidServices, c)[h] == st.now + DEFAULT_TTL
  {
  }

  lemma OtherListing(env: Env, st: Store, ad: Advertisement, c: string)
    requires c !in ad.cids
    requires var h := env.serviceHash(ad.service);
             h in st.serviceCids && Alive(st.now, st.serviceCids[h].expiry) && c in st.serviceCids[h].value
    ensures var h := env.serviceHash(ad.service);
            var after := Register(env, st, ad, 1);
            && c in after.serviceCids[h].value && after.serviceCids[h].expiry == st.now + DEFAULT_TTL
            && Fields(after.cidServices, c) == Fields(st.cidServices, c)
  {
  }

  /** Two accepted advertisements of one service of which only the first lists `c`, such as two
      spellings of one CID, leave `c` live under the service after the inverse entry of `c` has
      expired. */
  lemma DifferentStringsBreakConverse(env: Env, a: Advertisement, b: Advertisement, c: string)
    requires Accepts(env, a) && Accepts(env, b)
    requires env.serviceHash(a.service) == env.serviceHash(b.service)
    requires c in a.cids && c !in b.cids
    ensures !IsConverse(env, Run(env, 0, TwoRegistrations(a, b)), env.serviceHash(a.service), c)
  {
    RunFour(env, 0, TwoRegistrations(a, b));
    var s1 := Step(env, Run(env, 0, []), Submit(a, 0)).store;
    FirstListing(env, Run(env, 0, []).store, a, c);
    OtherListing(env, s1.(now := 1), b, c);
  }

  /** The two directions of the index are each other's converse in all runs that submit only
      `ads` exactly when any two accepted advertisements of one service among `ads` list the
      same strings. */
  lemma ConverseIffSameStrings(env: Env, ads: iset<Advertisement>)
    ensures (forall start, events, h, c :: Submits(events, ads) ==> IsConverse(env, Run(env, start, events), h, c))
            <==> SameStrings(env, ads)
  {
    if SameStrings(env, ads) {
      forall start, events, h, c | Submits(events, ads) ensures IsConverse(env, Run(env, start, events), h, c) {
        SameStringsMakeConverse(env, ads, start, events, h, c);
      }
    } else {
      var a, b, c := DifferingPair(env, ads);
      DifferentStringsBreakConverse(env, a, b, c);
      assert Submits(TwoRegistrations(a, b), ads);
    }
  }

  lemma DifferingPair(env: Env, ads: iset<Advertisement>)
    returns (a: Advertisement, b: Advertisement, c: string)
    requires !SameStrings(env, ads)
    ensures a in ads && b in ads && Accepts(env, a) && Accepts(env, b)
    ensures env.serviceHash(a.service) == env.serviceHash(b.service)
    ensures c in a.cids && c !in b.cids
  {
    a, b :| a in ads && b in ads && Accepts(env, a) && Accepts(env, b)
            && env.serviceHash(a.service) == env.serviceHash(b.service)
            && Elements(a.cids) != Elements(b.cids);
    if x :| x in Elements(a.cids) && x !in Elements(b.cids) {
      c := x;
    } else {
      c :| c in Elements(b.cids) && c !in Elements(a.cids);
      a, b := b, a;
    }
  }

  /** With collision-free hashes, canonical spellings are one way to meet the condition. */
  lemma CanonicalSpellingsAreConverse(env: Env, start: int, events: seq<Event>, h: string, c: string)
    requires CollisionFree(env)
    requires forall e :: e in events && e.Submit? ==> CanonicalAd(env, e.ad)
    ensures IsConverse(env, Run(env, start, events), h, c)
  {
    var ads := iset ad | CanonicalAd(env, ad);
    forall a, b | a in ads && b in ads && Accepts(env, a) && Accepts(env, b)
                  && env.serviceHash(a.service) == env.serviceHash(b.service)
      ensures Elements(a.cids) == Elements(b.cids)
    {
      SameServiceSameCids(env, a, b);
    }
    SameStringsMakeConverse(env, ads, start, events, h, c);
  }

  // ---------- Where search results come from ----------

  /** The service of a gathered candidate, and the provider behind it. */
  lemma {:induction false} CandidateSource(env: Env, st: Store, services: seq<VirtualService>,
                                           x: AdWithScore) returns (i: nat, did: string)
    requires x in Gather(env, st, services)
    ensures i < |services|
    ensures Z.Has(Readable(st.providers, env.serviceHash(services[i]), st.now, []), did)
    ensures LiveMember(st, did) && st.ads[did].value == x.ad
    decreases |services|
  {
    var n := |services| - 1;
    if x in Gather(env, st, services[..n]) {
      i, did := CandidateSource(env, st, services[..n], x);
    } else {
      i := n;
      var z := Readable(st.providers, env.serviceHash(services[n]), st.now, []);
      var head := Take(z, INSTANCE_COUNT + 1);
      did := LiveAdSource(st, head, x);
      var e :| e in head && e.member == did;
      assert e in z;
    }
  }

  lemma {:induction false} LiveAdSource(st: Store, z: seq<Z.Entry>, x: AdWithScore) returns (did: string)
    requires x in LiveAds(st, z)
    ensures Z.Has(z, did) && LiveMember(st, did) && st.ads[did].value == x.ad
  {
    var n := |z| - 1;
    if x in LiveAds(st, z[..n]) {
      did := LiveAdSource(st, z[..n], x);
      var e :| e in z[..n] && e.member == did;
      assert e in z;
    } else {
      did := z[n].member;
      assert z[n] in z;
    }
  }

  /** The service and provider an answered advertisement was found through. */
  lemma AnswerSource(env: Env, st: Store, log: seq<Registration>, c: string, r: SearchCidResponse,
                     ad: Advertisement) returns (h: string, did: string)
    requires Agree(env, st, log) && IsAnswer(env, st, c, r) && ad in r.instances
    ensures h in Found(st, c) && Z.Has(Readable(st.providers, h, st.now, []), did)
    ensures LiveMember(st, did) && st.ads[did].value == ad
  {
    var order :| Scans(st, c, order, r.services);
    ServicesHashBack(env, st, log, c, order, r.services);
    var ranking :| Ranks(env, st, r.services, ranking)
                   && r.instances == AdsOf(Take(ranking, INSTANCE_COUNT + 1));
    var n :| 0 <= n < |r.instances| && r.instances[n] == ad;
    var x := ranking[n];
    assert x in multiset(ranking);
    assert x in Gather(env, st, r.services);
    var k;
    k, did := CandidateSource(env, st, r.services, x);
    h := order[k];
    assert h in Elements(order);
  }

  /** The advertisement lists the CID that `c` spells, in some spelling. */
  ghost predicate ListsCid(env: Env, ad: Advertisement, c: string) {
    exists s :: s in ad.cids && env.codec.decode(s).Some? && env.codec.decode(s) == env.codec.decode(c)
  }

  lemma SameServiceListsCid(env: Env, a: Advertisement, b: Advertisement, c: string)
    requires CollisionFree(env) && Accepts(env, a) && Accepts(env, b)
    requires env.serviceHash(a.service) == env.serviceHash(b.service)
    requires ListsCid(env, a, c)
    ensures ListsCid(env, b, c)
  {
    SameServiceSameCids(env, a, b);
    var s :| s in a.cids && env.codec.decode(s).Some? && env.codec.decode(s) == env.codec.decode(c);
    var i :| 0 <= i < |a.cids| && a.cids[i] == s;
    assert b.cids[i] in b.cids;
  }

  /** An accepted advertisement lists the CID of each string it holds. */
  lemma HoldsSoLists(env: Env, ad: Advertisement, c: string)
    requires Accepts(env, ad) && c in ad.cids
    ensures ListsCid(env, ad, c)
  {
    DecodeAllPointwise(env.codec, ad.cids);
    var i :| 0 <= i < |ad.cids| && ad.cids[i] == c;
    assert env.codec.decode(ad.cids[i]).Some?;
  }

  /** The provider registered a root-checked advertisement listing the CID `c` spells. */
  ghost predicate HasBacking(env: Env, log: seq<Registration>, did: string, c: string) {
    exists i :: 0 <= i < |log| && log[i].ad.provider.did == did
                && ListsCid(env, log[i].ad, c) && RootChecked(env, log[i].ad)
  }

  /** The provider has only ever registered one service. */
  ghost predicate OneServiceOnly(log: seq<Registration>, did: string) {
    forall i, j :: 0 <= i < |log| && 0 <= j < |log| && log[i].ad.provider.did == log[j].ad.provider.did == did ==>
      log[i].ad.service == log[j].ad.service
  }

  /** Every advertisement SearchCid returns for `c`, however many candidates there are and
      however CIDs were spelled, comes from a provider that registered a root-checked
      advertisement listing that CID; and if that provider has only ever registered one
      service, the returned advertisement lists it. */
  lemma ResultsHaveProvenance(env: Env, start: int, events: seq<Event>, c: string,
                              r: SearchCidResponse, ad: Advertisement)
    requires CollisionFree(env)
    requires IsAnswer(env, Run(env, start, events).store, c, r) && ad in r.instances
    ensures HasBacking(env, Run(env, start, events).log, ad.provider.did, c)
    ensures OneServiceOnly(Run(env, start, events).log, ad.provider.did) ==> ListsCid(env, ad, c)
  {
    var w := Run(env, start, events);
    EveryRunAgrees(env, start, events);
    var h, did := AnswerSource(env, w.store, w.log, c, r, ad);
    ProvenanceOf(env, w.store, w.log, h, c, did, ad);
  }

  lemma ProvenanceOf(env: Env, st: Store, log: seq<Registration>, h: string, c: string,
                     did: string, ad: Advertisement)
    requires CollisionFree(env) && Agree(env, st, log)
    requires h in Found(st, c)
    requires Z.Has(Readable(st.providers, h, st.now, []), did)
    requires LiveMember(st, did) && st.ads[did].value == ad
    ensures HasBacking(env, log, ad.provider.did, c)
    ensures OneServiceOnly(log, ad.provider.did) ==> ListsCid(env, ad, c)
  {
    FoundIff(env, st, log, h, c);
    var j :| 0 <= j < |log| && Registers(env, log[j], h) && c in log[j].ad.cids;
    assert ProvidersAgree(env, st, log, h) && AdAgrees(env, st, log, did);
    var i :| i in Streak(env, log, h, did);
    HoldsSoLists(env, log[j].ad, c);
    SameServiceListsCid(env, log[j].ad, log[i].ad, c);
    var k := Latest(env, log, OfProvider(did));
    assert Selects(env, OfProvider(did), log[k]) && log[k].ad == ad;
    if log[i].ad.service == ad.service {
      SameServiceListsCid(env, log[i].ad, ad, c);
    }
  }
}

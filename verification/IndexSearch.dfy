/** What searching the provider index answers, in terms of the log of registrations alone. */
module IndexSearch {
  import opened Common
  import opened ProviderIndex
  import opened IndexLog
  import Z = SortedSets

  /** Some registration of `h` listing `c` is younger than DEFAULT_TTL. */
  ghost predicate ListsNow(env: Env, log: seq<Registration>, now: int, h: string, c: string) {
    exists i :: 0 <= i < |log| && Registers(env, log[i], h) && c in log[i].ad.cids
                && Alive(now, log[i].time + DEFAULT_TTL)
  }

  /** Some registration of `h` by anyone is younger than DEFAULT_TTL. */
  ghost predicate KnownNow(env: Env, log: seq<Registration>, now: int, h: string) {
    exists i :: 0 <= i < |log| && Registers(env, log[i], h) && Alive(now, log[i].time + DEFAULT_TTL)
  }

  /** `ad` is what its provider registered last, for whatever service, less than DEFAULT_TTL ago. */
  ghost predicate IsCurrentAd(env: Env, log: seq<Registration>, now: int, ad: Advertisement) {
    var k := Latest(env, log, OfProvider(ad.provider.did));
    k >= 0 && log[k].ad == ad && Alive(now, log[k].time + DEFAULT_TTL)
  }

  /** The services listing `c` whose unbroken live streak the provider of `ad` takes part in. */
  ghost function ServicesFor(env: Env, log: seq<Registration>, now: int, c: string, ad: Advertisement)
    : set<string>
  {
    set i | 0 <= i < |log|
            && (var h := env.serviceHash(log[i].ad.service);
                ListsNow(env, log, now, h, c)
                && Streak(env, log, h, ad.provider.did) != {}
                && IsCurrentAd(env, log, now, ad))
          :: env.serviceHash(log[i].ad.service)
  }

  lemma FoundIff(env: Env, st: Store, log: seq<Registration>, h: string, c: string)
    requires Agree(env, st, log)
    ensures h in Found(st, c) <==> ListsNow(env, log, st.now, h, c)
  {
    assert ListingAgrees(env, st, log, h, c) && DetailAgrees(env, st, log, h);
    var k := Latest(env, log, OfListing(h, c));
    var m := Latest(env, log, OfService(h));
    if ListsNow(env, log, st.now, h, c) {
      var i :| 0 <= i < |log| && Registers(env, log[i], h) && c in log[i].ad.cids
               && Alive(st.now, log[i].time + DEFAULT_TTL);
      assert Selects(env, OfListing(h, c), log[i]) && Selects(env, OfService(h), log[i]);
      assert log[i].time <= log[k].time && log[i].time <= log[m].time;
    }
    if h in Found(st, c) {
      assert Registers(env, log[k], h) && c in log[k].ad.cids;
    }
  }

  lemma KnownIff(env: Env, st: Store, log: seq<Registration>, h: string)
    requires Agree(env, st, log)
    ensures KnownNow(env, log, st.now, h) <==>
            h in st.providers && Alive(st.now, st.providers[h].expiry)
  {
    assert ProvidersAgree(env, st, log, h);
    var m := Latest(env, log, OfService(h));
    if KnownNow(env, log, st.now, h) {
      var i :| 0 <= i < |log| && Registers(env, log[i], h) && Alive(st.now, log[i].time + DEFAULT_TTL);
      assert Selects(env, OfService(h), log[i]);
      assert log[i].time <= log[m].time;
    } else if m >= 0 {
      assert Registers(env, log[m], h);
    }
  }

  /** A ranked provider with a live advertisement. */
  predicate LiveMember(st: Store, did: string) {
    did in st.ads && Alive(st.now, st.ads[did].expiry)
  }

  ghost predicate OwnAds(st: Store) {
    forall did :: did in st.ads ==> st.ads[did].value.provider.did == did
  }

  ghost predicate DistinctMembers(z: seq<Z.Entry>) {
    forall i, j :: 0 <= i < j < |z| ==> z[i].member != z[j].member
  }

  lemma ValidIsDistinct(z: seq<Z.Entry>)
    requires Z.Valid(z)
    ensures DistinctMembers(z)
  {
    forall i, j | 0 <= i < j < |z| ensures z[i].member != z[j].member {
      Z.BeforeTotal(z[i], z[j]);
      Z.BeforeTotal(z[i], z[i]);
    }
  }

  lemma AdsOfAppend(a: seq<AdWithScore>, b: seq<AdWithScore>)
    ensures AdsOf(a + b) == AdsOf(a) + AdsOf(b)
  {
  }

  lemma RemoveElement<T>(s: seq<T>, k: nat)
    requires k < |s|
    ensures multiset(s) == multiset(s[..k] + s[k + 1..]) + multiset{s[k]}
    ensures multiset(s[..k] + s[k + 1..]) == multiset(s) - multiset{s[k]}
  {
    assert s == s[..k] + [s[k]] + s[k + 1..];
  }

  lemma AdsOfRemove(s: seq<AdWithScore>, k: nat)
    requires k < |s|
    ensures multiset(AdsOf(s)) == multiset(AdsOf(s[..k] + s[k + 1..])) + multiset{s[k].ad}
  {
    RemoveElement(AdsOf(s), k);
    assert AdsOf(s[..k] + s[k + 1..]) == AdsOf(s)[..k] + AdsOf(s)[k + 1..];
  }

  lemma {:induction false} AdsOfMultiset(a: seq<AdWithScore>, b: seq<AdWithScore>)
    requires multiset(a) == multiset(b)
    ensures multiset(AdsOf(a)) == multiset(AdsOf(b))
    decreases |a|
  {
    if a == [] {
      assert |multiset(b)| == 0;
    } else {
      assert a[0] in multiset(b);
      var k :| 0 <= k < |b| && b[k] == a[0];
      var a', b' := a[..0] + a[1..], b[..k] + b[k + 1..];
      assert multiset(a') == multiset(b') by {
        RemoveElement(a, 0);
        RemoveElement(b, k);
      }
      AdsOfMultiset(a', b');
      AdsOfRemove(a, 0);
      AdsOfRemove(b, k);
    }
  }

  /** `ad` is the live advertisement of a member of the ranking. */
  ghost predicate Shows(st: Store, z: seq<Z.Entry>, ad: Advertisement) {
    && Z.Has(z, ad.provider.did) && LiveMember(st, ad.provider.did)
    && st.ads[ad.provider.did].value == ad
  }

  lemma ShowsStep(st: Store, z: seq<Z.Entry>, e: Z.Entry, ad: Advertisement)
    requires OwnAds(st)
    ensures Shows(st, z + [e], ad) <==>
            Shows(st, z, ad) || (LiveMember(st, e.member) && st.ads[e.member].value == ad)
  {
    assert e in z + [e];
    assert Z.Has(z + [e], ad.provider.did) <==> Z.Has(z, ad.provider.did) || e.member == ad.provider.did by {
      if x :| x in z && x.member == ad.provider.did {
        assert x in z + [e];
      }
    }
  }

  /** Among the live advertisements of a ranking, each member's one occurs once. */
  lemma {:induction false} LiveAdsCount(st: Store, z: seq<Z.Entry>, ad: Advertisement)
    requires OwnAds(st) && DistinctMembers(z)
    ensures multiset(AdsOf(LiveAds(st, z)))[ad] == if Shows(st, z, ad) then 1 else 0
  {
    if z != [] {
      var n := |z| - 1;
      LiveAdsCount(st, z[..n], ad);
      assert z == z[..n] + [z[n]];
      ShowsStep(st, z[..n], z[n], ad);
      if LiveMember(st, z[n].member) {
        var found := st.ads[z[n].member].value;
        assert Shows(st, z[..n], ad) ==> found != ad;
        AdsOfAppend(LiveAds(st, z[..n]), [AdWithScore(z[n].score, found)]);
        assert AdsOf(LiveAds(st, z)) == AdsOf(LiveAds(st, z[..n])) + [found];
      } else {
        assert LiveAds(st, z) == LiveAds(st, z[..n]);
      }
    }
  }

  ghost predicate Contributes(st: Store, h: string, ad: Advertisement) {
    Shows(st, Readable(st.providers, h, st.now, []), ad)
  }

  lemma SearchCount(st: Store, h: string, ad: Advertisement)
    requires OwnAds(st)
    requires Z.Valid(Readable(st.providers, h, st.now, []))
    requires |Readable(st.providers, h, st.now, [])| <= INSTANCE_COUNT
    ensures multiset(AdsOf(SearchInstances(st, h, INSTANCE_COUNT)))[ad] ==
            if Contributes(st, h, ad) then 1 else 0
  {
    var z := Readable(st.providers, h, st.now, []);
    ValidIsDistinct(z);
    LiveAdsCount(st, z, ad);
  }

  ghost predicate Served(env: Env, st: Store, services: seq<VirtualService>, order: seq<string>) {
    |services| == |order|
    && forall i :: 0 <= i < |order| ==> env.serviceHash(services[i]) == order[i]
  }

  /** The services scanned so far that contribute `ad`. */
  ghost function Contributors(st: Store, order: seq<string>, ad: Advertisement): set<string> {
    set h | h in order && Contributes(st, h, ad)
  }

  lemma ContributorsStep(st: Store, order: seq<string>, h: string, ad: Advertisement)
    requires h !in order
    ensures |Contributors(st, order + [h], ad)| ==
            |Contributors(st, order, ad)| + if Contributes(st, h, ad) then 1 else 0
  {
    assert Contributors(st, order + [h], ad) ==
           Contributors(st, order, ad) + if Contributes(st, h, ad) then {h} else {};
  }

  lemma {:induction false} GatherCount(env: Env, st: Store, services: seq<VirtualService>,
                                       order: seq<string>, ad: Advertisement)
    requires OwnAds(st) && Served(env, st, services, order) && NoRepeats(order)
    requires forall h :: Z.Valid(Readable(st.providers, h, st.now, []))
    requires forall h :: h in order ==> |Readable(st.providers, h, st.now, [])| <= INSTANCE_COUNT
    ensures multiset(AdsOf(Gather(env, st, services)))[ad] == |Contributors(st, order, ad)|
    decreases |services|
  {
    if services != [] {
      var n := |services| - 1;
      assert order == order[..n] + [order[n]];
      GatherCount(env, st, services[..n], order[..n], ad);
      SearchCount(st, order[n], ad);
      ContributorsStep(st, order[..n], order[n], ad);
      var last := SearchInstances(st, order[n], INSTANCE_COUNT);
      AdsOfAppend(Gather(env, st, services[..n]), last);
    }
  }

  lemma ProvidersValid(env: Env, st: Store, log: seq<Registration>)
    requires Agree(env, st, log)
    ensures OwnAds(st)
    ensures forall h :: Z.Valid(Readable(st.providers, h, st.now, []))
  {
    forall did | did in st.ads ensures st.ads[did].value.provider.did == did {
      assert AdAgrees(env, st, log, did);
    }
    forall h ensures Z.Valid(Readable(st.providers, h, st.now, [])) {
      assert ProvidersAgree(env, st, log, h);
    }
  }

  lemma ServicesHashBack(env: Env, st: Store, log: seq<Registration>, c: string, order: seq<string>,
                         services: seq<VirtualService>)
    requires Agree(env, st, log) && Scans(st, c, order, services)
    ensures Served(env, st, services, order)
  {
    forall i | 0 <= i < |order| ensures env.serviceHash(services[i]) == order[i] {
      assert DetailAgrees(env, st, log, order[i]);
      var k := Latest(env, log, OfService(order[i]));
      assert Selects(env, OfService(order[i]), log[k]);
    }
  }

  lemma ContributesIff(env: Env, st: Store, log: seq<Registration>, h: string, ad: Advertisement)
    requires Agree(env, st, log)
    ensures Contributes(st, h, ad) <==>
            KnownNow(env, log, st.now, h) && Streak(env, log, h, ad.provider.did) != {}
            && IsCurrentAd(env, log, st.now, ad)
  {
    KnownIff(env, st, log, h);
    assert ProvidersAgree(env, st, log, h) && AdAgrees(env, st, log, ad.provider.did);
  }

  lemma ContributorsAreServices(env: Env, st: Store, log: seq<Registration>, c: string,
                                order: seq<string>, ad: Advertisement)
    requires Agree(env, st, log) && Elements(order) == Found(st, c)
    ensures Contributors(st, order, ad) == ServicesFor(env, log, st.now, c, ad)
  {
    forall h ensures h in Contributors(st, order, ad) <==> h in ServicesFor(env, log, st.now, c, ad) {
      assert h in order <==> h in Elements(order);
      FoundIff(env, st, log, h, c);
      ContributesIff(env, st, log, h, ad);
      assert ListsNow(env, log, st.now, h, c) ==> KnownNow(env, log, st.now, h);
      if h in order && Contributes(st, h, ad) {
        var i :| 0 <= i < |log| && Registers(env, log[i], h);
        assert env.serviceHash(log[i].ad.service) == h;
      }
    }
  }

  /** No service found has over 100 ranked providers and there are at most 101 candidates. */
  ghost predicate UnderCaps(env: Env, st: Store, c: string, r: SearchCidResponse) {
    && (forall h :: h in Found(st, c) ==> |Readable(st.providers, h, st.now, [])| <= INSTANCE_COUNT)
    && |Gather(env, st, r.services)| <= INSTANCE_COUNT + 1
  }

  /** Searching agrees with the log.  In every run, while no service found has over 100 ranked
      providers and there are at most 101 candidates, the answer holds each advertisement
      exactly once for each service that is listing `c`, is in an unbroken live streak its
      provider takes part in, and only while it is that provider's latest and under
      DEFAULT_TTL old. */
  lemma SearchAgreesWithLog(env: Env, start: int, events: seq<Event>, c: string,
                            r: SearchCidResponse, ad: Advertisement)
    requires IsAnswer(env, Run(env, start, events).store, c, r)
    requires UnderCaps(env, Run(env, start, events).store, c, r)
    ensures var w := Run(env, start, events);
            multiset(r.instances)[ad] == |ServicesFor(env, w.log, w.store.now, c, ad)|
  {
    var w := Run(env, start, events);
    EveryRunAgrees(env, start, events);
    ProvidersValid(env, w.store, w.log);
    var order :| Scans(w.store, c, order, r.services);
    var ranking :| Ranks(env, w.store, r.services, ranking)
                   && r.instances == AdsOf(Take(ranking, INSTANCE_COUNT + 1));
    ServicesHashBack(env, w.store, w.log, c, order, r.services);
    assert forall h :: h in order ==> h in Elements(order);
    GatherCount(env, w.store, r.services, order, ad);
    assert |ranking| == |multiset(ranking)| == |Gather(env, w.store, r.services)|;
    AdsOfMultiset(ranking, Gather(env, w.store, r.services));
    ContributorsAreServices(env, w.store, w.log, c, order, ad);
  }

  /** SearchCid answers NotFound exactly when the log has no registration under DEFAULT_TTL
      old that lists the normalised CID. */
  lemma NotFoundAgreesWithLog(env: Env, start: int, events: seq<Event>, c: string)
    ensures var w := Run(env, start, events);
            Found(w.store, c) == {} <==> forall h :: !ListsNow(env, w.log, w.store.now, h, c)
  {
    var w := Run(env, start, events);
    EveryRunAgrees(env, start, events);
    forall h ensures h in Found(w.store, c) <==> ListsNow(env, w.log, w.store.now, h, c) {
      FoundIff(env, w.store, w.log, h, c);
    }
  }

  /** In numbers: what is registered once is found for exactly seven days. */
  lemma FoundForAWeek(env: Env, ad: Advertisement, c: string, millis: nat)
    requires Accepts(env, ad) && c in ad.cids
    ensures var w := Run(env, 0, [Submit(ad, 0), Advance(millis)]);
            Found(w.store, c) == if millis <= 604_800_000 then {env.serviceHash(ad.service)} else {}
  {
    RunMore(env, 0, [], Submit(ad, 0));
    RunMore(env, 0, [Submit(ad, 0)], Advance(millis));
    assert [] + [Submit(ad, 0)] == [Submit(ad, 0)];
    assert [Submit(ad, 0)] + [Advance(millis)] == [Submit(ad, 0), Advance(millis)];
  }

  lemma {:induction false} LiveAdsRanked(st: Store, z: seq<Z.Entry>)
    requires Z.Ordered(z)
    ensures Ascending(LiveAds(st, z))
    ensures forall x :: x in LiveAds(st, z) ==>
              exists e :: e in z && e.score == x.score && LiveMember(st, e.member)
                          && st.ads[e.member].value == x.ad
  {
    if z != [] {
      var n := |z| - 1;
      LiveAdsRanked(st, z[..n]);
      assert z[n] in z;
      forall x | x in LiveAds(st, z[..n]) ensures x.score <= z[n].score {
        var e :| e in z[..n] && e.score == x.score;
        var i :| 0 <= i < n && z[i] == e;
        assert Z.Before(z[i], z[n]);
      }
    }
  }

  /** What one search result says about the log. */
  ghost predicate WellRanked(env: Env, log: seq<Registration>, now: int, h: string, x: AdWithScore) {
    && IsCurrentAd(env, log, now, x.ad)
    && IsTopStamp(log, Streak(env, log, h, x.ad.provider.did), x.score)
  }

  lemma LiveAdWellRanked(env: Env, st: Store, log: seq<Registration>, h: string, e: Z.Entry, x: AdWithScore)
    requires Agree(env, st, log)
    requires e in Readable(st.providers, h, st.now, []) && e.score == x.score
    requires LiveMember(st, e.member) && st.ads[e.member].value == x.ad
    ensures WellRanked(env, log, st.now, h, x)
  {
    assert ProvidersAgree(env, st, log, h) && AdAgrees(env, st, log, e.member);
  }

  /** In every run, one service yields at most 100 advertisements, in ascending score, each
      live and each scored by the largest stamp its provider submitted in the streak. */
  lemma RankedByTopStamp(env: Env, start: int, events: seq<Event>, h: string)
    ensures var w := Run(env, start, events);
            var found := SearchInstances(w.store, h, INSTANCE_COUNT);
            && |found| <= INSTANCE_COUNT
            && Ascending(found)
            && forall x :: x in found ==> WellRanked(env, w.log, w.store.now, h, x)
  {
    var w := Run(env, start, events);
    EveryRunAgrees(env, start, events);
    ProvidersValid(env, w.store, w.log);
    var z := Readable(w.store.providers, h, w.store.now, []);
    var head := Take(z, INSTANCE_COUNT + 1);
    assert Z.Ordered(head);
    LiveAdsRanked(w.store, head);
    forall x | x in LiveAds(w.store, head) ensures WellRanked(env, w.log, w.store.now, h, x) {
      var e :| e in head && e.score == x.score && LiveMember(w.store, e.member)
               && w.store.ads[e.member].value == x.ad;
      assert e in z;
      LiveAdWellRanked(env, w.store, w.log, h, e, x);
    }
  }
}

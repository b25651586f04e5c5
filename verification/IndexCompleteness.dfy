/** When SearchCid answers with every provider it should, in terms of the log of registrations. */
module IndexCompleteness {
  import opened Common
  import opened ProviderIndex
  import opened IndexLog
  import opened IndexSearch
  import opened IndexCapacity
  import Z = SortedSets

  /** The services some young registration lists under `c`. */
  ghost function Listing(env: Env, log: seq<Registration>, now: int, c: string): set<string> {
    set i | 0 <= i < |log| && ListsNow(env, log, now, env.serviceHash(log[i].ad.service), c)
          :: env.serviceHash(log[i].ad.service)
  }

  /** At most 100 providers to show, each with at most 100 members of the streak ahead of it. */
  ghost predicate FitsWindow(env: Env, log: seq<Registration>, now: int, h: string) {
    && |Current(env, log, now, h)| <= 100
    && forall did :: did in Current(env, log, now, h) ==> |Ahead(env, log, h, did)| <= 100
  }

  /** How many providers each service has to show. */
  ghost function Sizes(env: Env, log: seq<Registration>, now: int, hs: set<string>): map<string, int> {
    map h | h in hs :: |Current(env, log, now, h)|
  }

  lemma ListingIsFound(env: Env, st: Store, log: seq<Registration>, c: string)
    requires Agree(env, st, log)
    ensures Listing(env, log, st.now, c) == Found(st, c)
  {
    forall h ensures h in Listing(env, log, st.now, c) <==> h in Found(st, c) {
      FoundIff(env, st, log, h, c);
      if ListsNow(env, log, st.now, h, c) {
        var i :| 0 <= i < |log| && Registers(env, log[i], h);
        assert env.serviceHash(log[i].ad.service) == h;
      }
    }
  }

  // ---------- One service ----------

  function Ranked(st: Store, h: string): seq<Z.Entry> {
    Readable(st.providers, h, st.now, [])
  }

  function Shown(st: Store, h: string): seq<AdWithScore> {
    SearchInstances(st, h, INSTANCE_COUNT)
  }

  ghost predicate Complete(st: Store, h: string) {
    LiveDids(st, Ranked(st, h)) <= DidsOf(Shown(st, h))
  }

  lemma CompleteIffFits(env: Env, st: Store, log: seq<Registration>, h: string)
    requires Agree(env, st, log)
    ensures Complete(st, h) <==> FitsWindow(env, log, st.now, h)
    ensures Current(env, log, st.now, h) == LiveDids(st, Ranked(st, h))
  {
    AgreementCompleteIff(env, st, log, h);
    CurrentIsLive(env, st, log, h);
  }

  function Occurrences(s: seq<AdWithScore>, ad: Advertisement): nat {
    multiset(AdsOf(s))[ad]
  }

  lemma OccurrencesAppend(a: seq<AdWithScore>, b: seq<AdWithScore>, ad: Advertisement)
    ensures Occurrences(a + b, ad) == Occurrences(a, ad) + Occurrences(b, ad)
  {
    AdsOfAppend(a, b);
  }

  lemma OccursIff(s: seq<AdWithScore>, ad: Advertisement)
    ensures Occurrences(s, ad) > 0 <==> exists x :: x in s && x.ad == ad
  {
    if Occurrences(s, ad) > 0 {
      assert ad in AdsOf(s);
      var i :| 0 <= i < |s| && AdsOf(s)[i] == ad;
      assert s[i] in s;
    }
    if x :| x in s && x.ad == ad {
      var i :| 0 <= i < |s| && s[i] == x;
      assert AdsOf(s)[i] == ad;
      assert ad in AdsOf(s);
    }
  }

  lemma TakeOccurs(s: seq<AdWithScore>, n: nat, ad: Advertisement)
    ensures Occurrences(Take(s, n), ad) <= Occurrences(s, ad)
  {
    if |s| > n {
      assert s == s[..n] + s[n..];
      OccurrencesAppend(s[..n], s[n..], ad);
    }
  }

  /** What one service has to contribute. */
  ghost function Due(st: Store, h: string, ad: Advertisement): nat {
    if Contributes(st, h, ad) then 1 else 0
  }

  lemma ShownAtMost(st: Store, h: string, ad: Advertisement)
    requires OwnAds(st) && Z.Valid(Ranked(st, h))
    ensures Occurrences(Shown(st, h), ad) <= Due(st, h, ad)
  {
    var z := Ranked(st, h);
    var head := Take(z, INSTANCE_COUNT + 1);
    ValidIsDistinct(z);
    LiveAdsCount(st, head, ad);
    TakeOccurs(LiveAds(st, head), INSTANCE_COUNT, ad);
    if Shows(st, head, ad) {
      var e :| e in head && e.member == ad.provider.did;
      assert e in z;
    }
  }

  /** What is shown of a provider is its advertisement. */
  lemma ShownIsOwn(st: Store, h: string, x: AdWithScore)
    requires OwnAds(st) && x in Shown(st, h)
    ensures LiveMember(st, x.ad.provider.did) && st.ads[x.ad.provider.did].value == x.ad
  {
    var head := Take(Ranked(st, h), INSTANCE_COUNT + 1);
    assert x in LiveAds(st, head);
    LiveAdIsOwn(st, head, x);
  }

  lemma {:induction false} LiveAdIsOwn(st: Store, z: seq<Z.Entry>, x: AdWithScore)
    requires OwnAds(st) && x in LiveAds(st, z)
    ensures LiveMember(st, x.ad.provider.did) && st.ads[x.ad.provider.did].value == x.ad
  {
    var n := |z| - 1;
    if x in LiveAds(st, z[..n]) {
      LiveAdIsOwn(st, z[..n], x);
    } else {
      assert LiveMember(st, z[n].member);
    }
  }

  lemma CompleteShowsAll(st: Store, h: string, ad: Advertisement)
    requires OwnAds(st) && Z.Valid(Ranked(st, h)) && Complete(st, h)
    ensures Occurrences(Shown(st, h), ad) == Due(st, h, ad)
  {
    ShownAtMost(st, h, ad);
    if Contributes(st, h, ad) {
      var did := ad.provider.did;
      var e :| e in Ranked(st, h) && e.member == did;
      assert did in LiveDids(st, Ranked(st, h));
      var x :| x in Shown(st, h) && x.ad.provider.did == did;
      ShownIsOwn(st, h, x);
      OccursIff(Shown(st, h), ad);
    }
  }

  lemma IncompleteMisses(st: Store, h: string) returns (ad: Advertisement)
    requires OwnAds(st) && Z.Valid(Ranked(st, h)) && !Complete(st, h)
    ensures Occurrences(Shown(st, h), ad) < Due(st, h, ad)
  {
    var did :| did in LiveDids(st, Ranked(st, h)) && did !in DidsOf(Shown(st, h));
    ad := st.ads[did].value;
    OccursIff(Shown(st, h), ad);
  }

  lemma CompleteSize(st: Store, h: string)
    requires OwnAds(st) && Z.Valid(Ranked(st, h)) && Complete(st, h)
    ensures |Shown(st, h)| == |LiveDids(st, Ranked(st, h))|
  {
    var z := Ranked(st, h);
    var head := Take(z, INSTANCE_COUNT + 1);
    ValidIsDistinct(z);
    LiveAdsAreOfLiveDids(st, head);
    assert LiveDids(st, head) <= LiveDids(st, z);
    SubsetSize(LiveDids(st, head), LiveDids(st, z));
    SubsetSize(LiveDids(st, z), DidsOf(Shown(st, h)));
    DidsOfSize(Shown(st, h));
  }

  // ---------- All services ----------

  function Concat(parts: seq<seq<AdWithScore>>, n: nat): seq<AdWithScore>
    requires n <= |parts|
  {
    if n == 0 then [] else Concat(parts, n - 1) + parts[n - 1]
  }

  function Total(xs: seq<nat>, n: nat): nat
    requires n <= |xs|
  {
    if n == 0 then 0 else Total(xs, n - 1) + xs[n - 1]
  }

  lemma {:induction false} ConcatOccurs(parts: seq<seq<AdWithScore>>, due: seq<nat>, n: nat, ad: Advertisement)
    requires n <= |parts| == |due|
    requires forall i :: 0 <= i < |parts| ==> Occurrences(parts[i], ad) <= due[i]
    ensures Occurrences(Concat(parts, n), ad) <= Total(due, n)
    ensures Occurrences(Concat(parts, n), ad) == Total(due, n) <==>
            forall i :: 0 <= i < n ==> Occurrences(parts[i], ad) == due[i]
  {
    if n > 0 {
      ConcatOccurs(parts, due, n - 1, ad);
      OccurrencesAppend(Concat(parts, n - 1), parts[n - 1], ad);
    }
  }

  lemma {:induction false} ConcatSize(parts: seq<seq<AdWithScore>>, sizes: seq<nat>, n: nat)
    requires n <= |parts| == |sizes| && forall i :: 0 <= i < |parts| ==> |parts[i]| == sizes[i]
    ensures |Concat(parts, n)| == Total(sizes, n)
  {
    if n > 0 {
      ConcatSize(parts, sizes, n - 1);
    }
  }

  /** What the services show, one after the other. */
  function Parts(st: Store, order: seq<string>): seq<seq<AdWithScore>> {
    seq(|order|, i requires 0 <= i < |order| => Shown(st, order[i]))
  }

  lemma {:induction false} GatherIsConcat(env: Env, st: Store, services: seq<VirtualService>,
                                          parts: seq<seq<AdWithScore>>, n: nat)
    requires n <= |services| == |parts|
    requires forall i :: 0 <= i < |parts| ==>
               parts[i] == SearchInstances(st, env.serviceHash(services[i]), INSTANCE_COUNT)
    ensures Gather(env, st, services[..n]) == Concat(parts, n)
  {
    if n > 0 {
      GatherIsConcat(env, st, services, parts, n - 1);
      assert services[..n][..n - 1] == services[..n - 1];
    }
  }

  lemma GatheredParts(env: Env, st: Store, services: seq<VirtualService>, order: seq<string>)
    requires Served(env, st, services, order)
    ensures Gather(env, st, services) == Concat(Parts(st, order), |order|)
  {
    GatherIsConcat(env, st, services, Parts(st, order), |order|);
    assert services[..|order|] == services;
  }

  ghost function Dues(st: Store, order: seq<string>, ad: Advertisement): seq<nat> {
    seq(|order|, i requires 0 <= i < |order| => Due(st, order[i], ad))
  }

  lemma {:induction false} DuesAreContributors(st: Store, order: seq<string>, due: seq<nat>, n: nat, ad: Advertisement)
    requires NoRepeats(order) && n <= |order| == |due|
    requires forall i :: 0 <= i < |order| ==> due[i] == Due(st, order[i], ad)
    ensures Total(due, n) == |Contributors(st, order[..n], ad)|
  {
    if n > 0 {
      DuesAreContributors(st, order, due, n - 1, ad);
      assert order[..n] == order[..n - 1] + [order[n - 1]];
      ContributorsStep(st, order[..n - 1], order[n - 1], ad);
    } else {
      assert Contributors(st, order[..0], ad) == {};
    }
  }

  ghost predicate Healthy(st: Store) {
    OwnAds(st) && forall h :: Z.Valid(Ranked(st, h))
  }

  /** All services together show an advertisement at most as often as they should, and exactly
      so if and only if each does. */
  lemma GatheredAtMost(env: Env, st: Store, services: seq<VirtualService>, order: seq<string>, ad: Advertisement)
    requires Healthy(st) && Served(env, st, services, order) && NoRepeats(order)
    ensures var n := Occurrences(Gather(env, st, services), ad);
            && n <= |Contributors(st, order, ad)|
            && (n == |Contributors(st, order, ad)| <==>
                forall i :: 0 <= i < |order| ==> Occurrences(Shown(st, order[i]), ad) == Due(st, order[i], ad))
  {
    var parts, due := Parts(st, order), Dues(st, order, ad);
    GatheredParts(env, st, services, order);
    forall i | 0 <= i < |order| ensures Occurrences(parts[i], ad) <= due[i] {
      ShownAtMost(st, order[i], ad);
    }
    ConcatOccurs(parts, due, |order|, ad);
    DuesAreContributors(st, order, due, |order|, ad);
    assert order[..|order|] == order;
    assert forall i :: 0 <= i < |order| ==> parts[i] == Shown(st, order[i]) && due[i] == Due(st, order[i], ad);
  }

  function LiveSizes(st: Store, hs: set<string>): map<string, int> {
    map h | h in hs :: |LiveDids(st, Ranked(st, h))|
  }

  function Only(m: map<string, int>, keys: set<string>): map<string, int> {
    map k | k in keys && k in m :: m[k]
  }

  lemma OnlyNext(m: map<string, int>, keys: set<string>, k: string)
    requires k in m && k !in keys
    ensures Sum(Only(m, keys + {k})) == Sum(Only(m, keys)) + m[k]
  {
    assert Only(m, keys + {k}) == Only(m, keys)[k := m[k]];
    SumUpdate(Only(m, keys), k, m[k]);
  }

  function Firsts(order: seq<string>, n: nat): set<string>
    requires n <= |order|
  {
    if n == 0 then {} else Firsts(order, n - 1) + {order[n - 1]}
  }

  lemma {:induction false} FirstsAre(order: seq<string>, n: nat, h: string)
    requires n <= |order|
    ensures h in Firsts(order, n) <==> exists i :: 0 <= i < n && order[i] == h
  {
    if n > 0 {
      FirstsAre(order, n - 1, h);
    }
  }

  lemma {:induction false} TotalIsSum(m: map<string, int>, order: seq<string>, xs: seq<nat>, n: nat)
    requires NoRepeats(order) && n <= |order| == |xs|
    requires forall i :: 0 <= i < |order| ==> order[i] in m && m[order[i]] == xs[i]
    ensures Total(xs, n) == Sum(Only(m, Firsts(order, n)))
  {
    if n > 0 {
      TotalIsSum(m, order, xs, n - 1);
      FirstsAre(order, n - 1, order[n - 1]);
      OnlyNext(m, Firsts(order, n - 1), order[n - 1]);
    } else {
      assert Only(m, {}) == map[];
    }
  }

  lemma SumOverOrder(m: map<string, int>, order: seq<string>, xs: seq<nat>)
    requires NoRepeats(order) && |order| == |xs| && m.Keys == Elements(order)
    requires forall i :: 0 <= i < |order| ==> order[i] in m && m[order[i]] == xs[i]
    ensures Total(xs, |order|) == Sum(m)
  {
    TotalIsSum(m, order, xs, |order|);
    forall h ensures h in Firsts(order, |order|) <==> h in m {
      FirstsAre(order, |order|, h);
    }
    assert Only(m, Firsts(order, |order|)) == m;
  }

  lemma GatheredSize(env: Env, st: Store, services: seq<VirtualService>, order: seq<string>)
    requires Healthy(st) && Served(env, st, services, order) && NoRepeats(order)
    requires forall i :: 0 <= i < |order| ==> Complete(st, order[i])
    ensures |Gather(env, st, services)| == Sum(LiveSizes(st, Elements(order)))
  {
    var parts := Parts(st, order);
    var sizes: seq<nat> := seq(|order|, i requires 0 <= i < |order| => |LiveDids(st, Ranked(st, order[i]))|);
    GatheredParts(env, st, services, order);
    forall i | 0 <= i < |order| ensures |parts[i]| == sizes[i] {
      CompleteSize(st, order[i]);
    }
    ConcatSize(parts, sizes, |order|);
    var m := LiveSizes(st, Elements(order));
    assert forall i :: 0 <= i < |order| ==> order[i] in Elements(order);
    SumOverOrder(m, order, sizes);
  }

  /** A cut ranking has lost something. */
  lemma CutLoses(ranking: seq<AdWithScore>, n: nat) returns (ad: Advertisement)
    requires |ranking| > n
    ensures Occurrences(Take(ranking, n), ad) < Occurrences(ranking, ad)
  {
    ad := ranking[n].ad;
    assert ranking == ranking[..n] + ranking[n..];
    OccurrencesAppend(ranking[..n], ranking[n..], ad);
    assert ranking[n..][0] == ranking[n] && ranking[n] in ranking[n..];
    OccursIff(ranking[n..], ad);
  }

  ghost predicate ShowsAll(st: Store, order: seq<string>, ranking: seq<AdWithScore>) {
    forall ad :: Occurrences(Take(ranking, INSTANCE_COUNT + 1), ad) == |Contributors(st, order, ad)|
  }

  lemma SameOccurrences(a: seq<AdWithScore>, b: seq<AdWithScore>, ad: Advertisement)
    requires multiset(a) == multiset(b)
    ensures Occurrences(a, ad) == Occurrences(b, ad) && |a| == |b|
  {
    AdsOfMultiset(a, b);
    assert |multiset(a)| == |a| && |multiset(b)| == |b|;
  }

  lemma AllCompleteWhenShown(env: Env, st: Store, services: seq<VirtualService>, order: seq<string>,
                             ranking: seq<AdWithScore>)
    requires Healthy(st) && Served(env, st, services, order) && NoRepeats(order)
    requires multiset(ranking) == multiset(Gather(env, st, services)) && ShowsAll(st, order, ranking)
    ensures forall i :: 0 <= i < |order| ==> Complete(st, order[i])
    ensures |ranking| <= INSTANCE_COUNT + 1
  {
    forall i | 0 <= i < |order| ensures Complete(st, order[i]) {
      if !Complete(st, order[i]) {
        var ad := IncompleteMisses(st, order[i]);
        GatheredAtMost(env, st, services, order, ad);
        SameOccurrences(ranking, Gather(env, st, services), ad);
        TakeOccurs(ranking, INSTANCE_COUNT + 1, ad);
      }
    }
    if |ranking| > INSTANCE_COUNT + 1 {
      var ad := CutLoses(ranking, INSTANCE_COUNT + 1);
      GatheredAtMost(env, st, services, order, ad);
      SameOccurrences(ranking, Gather(env, st, services), ad);
    }
  }

  lemma ShownWhenComplete(env: Env, st: Store, services: seq<VirtualService>, order: seq<string>,
                          ranking: seq<AdWithScore>)
    requires Healthy(st) && Served(env, st, services, order) && NoRepeats(order)
    requires multiset(ranking) == multiset(Gather(env, st, services)) && |ranking| <= INSTANCE_COUNT + 1
    requires forall i :: 0 <= i < |order| ==> Complete(st, order[i])
    ensures ShowsAll(st, order, ranking)
  {
    forall ad ensures Occurrences(Take(ranking, INSTANCE_COUNT + 1), ad) == |Contributors(st, order, ad)| {
      forall i | 0 <= i < |order| ensures Occurrences(Shown(st, order[i]), ad) == Due(st, order[i], ad) {
        CompleteShowsAll(st, order[i], ad);
      }
      GatheredAtMost(env, st, services, order, ad);
      SameOccurrences(ranking, Gather(env, st, services), ad);
    }
  }

  lemma RankingSize(env: Env, st: Store, services: seq<VirtualService>, order: seq<string>,
                    ranking: seq<AdWithScore>)
    requires Healthy(st) && Served(env, st, services, order) && NoRepeats(order)
    requires multiset(ranking) == multiset(Gather(env, st, services))
    requires forall i :: 0 <= i < |order| ==> Complete(st, order[i])
    ensures |ranking| == Sum(LiveSizes(st, Elements(order)))
  {
    GatheredSize(env, st, services, order);
    assert |multiset(ranking)| == |ranking|;
    assert |multiset(Gather(env, st, services))| == |Gather(env, st, services)|;
  }

  ghost predicate WithinCaps(st: Store, order: seq<string>) {
    && (forall h :: h in Elements(order) ==> Complete(st, h))
    && Sum(LiveSizes(st, Elements(order))) <= INSTANCE_COUNT + 1
  }

  lemma CapsWhenShown(env: Env, st: Store, services: seq<VirtualService>, order: seq<string>,
                      ranking: seq<AdWithScore>)
    requires Healthy(st) && Served(env, st, services, order) && NoRepeats(order)
    requires multiset(ranking) == multiset(Gather(env, st, services)) && ShowsAll(st, order, ranking)
    ensures WithinCaps(st, order)
  {
    AllCompleteWhenShown(env, st, services, order, ranking);
    RankingSize(env, st, services, order, ranking);
  }

  lemma ShownWithinCaps(env: Env, st: Store, services: seq<VirtualService>, order: seq<string>,
                        ranking: seq<AdWithScore>)
    requires Healthy(st) && Served(env, st, services, order) && NoRepeats(order)
    requires multiset(ranking) == multiset(Gather(env, st, services)) && WithinCaps(st, order)
    ensures ShowsAll(st, order, ranking)
  {
    assert forall i :: 0 <= i < |order| ==> order[i] in Elements(order);
    RankingSize(env, st, services, order, ranking);
    ShownWhenComplete(env, st, services, order, ranking);
  }

  /** Over the store: everything is shown exactly when every service found is complete and all
      together have at most 101 providers. */
  lemma StoreShowsAllIff(env: Env, st: Store, services: seq<VirtualService>, order: seq<string>,
                         ranking: seq<AdWithScore>)
    requires Healthy(st) && Served(env, st, services, order) && NoRepeats(order)
    requires multiset(ranking) == multiset(Gather(env, st, services))
    ensures ShowsAll(st, order, ranking) <==> WithinCaps(st, order)
  {
    if ShowsAll(st, order, ranking) {
      CapsWhenShown(env, st, services, order, ranking);
    } else if WithinCaps(st, order) {
      ShownWithinCaps(env, st, services, order, ranking);
    }
  }

  /** The answer holds each advertisement once for each service that is listing `c` and whose
      streak its provider takes part in. */
  ghost predicate AnswersAll(env: Env, log: seq<Registration>, now: int, c: string, r: SearchCidResponse) {
    forall ad :: multiset(r.instances)[ad] == |ServicesFor(env, log, now, c, ad)|
  }

  lemma AnswersAllIff(env: Env, st: Store, log: seq<Registration>, c: string, r: SearchCidResponse,
                      order: seq<string>, ranking: seq<AdWithScore>)
    requires Agree(env, st, log) && Elements(order) == Found(st, c)
    requires r.instances == AdsOf(Take(ranking, INSTANCE_COUNT + 1))
    ensures AnswersAll(env, log, st.now, c, r) <==> ShowsAll(st, order, ranking)
  {
    forall ad ensures |Contributors(st, order, ad)| == |ServicesFor(env, log, st.now, c, ad)| {
      ContributorsAreServices(env, st, log, c, order, ad);
    }
  }

  lemma SameSizes(env: Env, st: Store, log: seq<Registration>, hs: set<string>)
    requires Agree(env, st, log)
    ensures LiveSizes(st, hs) == Sizes(env, log, st.now, hs)
    ensures forall h :: Complete(st, h) <==> FitsWindow(env, log, st.now, h)
  {
    forall h
      ensures |LiveDids(st, Ranked(st, h))| == |Current(env, log, st.now, h)|
              && (Complete(st, h) <==> FitsWindow(env, log, st.now, h))
    {
      CompleteIffFits(env, st, log, h);
    }
  }

  /** The same caps over the log. */
  ghost predicate LogWithinCaps(env: Env, log: seq<Registration>, now: int, c: string) {
    && (forall h :: h in Listing(env, log, now, c) ==> FitsWindow(env, log, now, h))
    && Sum(Sizes(env, log, now, Listing(env, log, now, c))) <= 101
  }

  lemma CapsOfLog(env: Env, st: Store, log: seq<Registration>, c: string, order: seq<string>)
    requires Agree(env, st, log) && Elements(order) == Found(st, c)
    ensures WithinCaps(st, order) <==> LogWithinCaps(env, log, st.now, c)
  {
    ListingIsFound(env, st, log, c);
    SameSizes(env, st, log, Elements(order));
  }

  /** SearchCid answers with all providers it should, each as often as it should, exactly when
      every service that is listing `c` has at most 100 of them, none with over 100 members of
      the streak ahead of it, and all these services together have at most 101. */
  lemma SearchCidCompleteIff(env: Env, start: int, events: seq<Event>, c: string, r: SearchCidResponse)
    requires IsAnswer(env, Run(env, start, events).store, c, r)
    ensures var w := Run(env, start, events);
            AnswersAll(env, w.log, w.store.now, c, r) <==> LogWithinCaps(env, w.log, w.store.now, c)
  {
    EveryRunAgrees(env, start, events);
    var w := Run(env, start, events);
    AgreedCompleteIff(env, w.store, w.log, c, r);
  }

  lemma AgreedCompleteIff(env: Env, st: Store, log: seq<Registration>, c: string, r: SearchCidResponse)
    requires Agree(env, st, log) && IsAnswer(env, st, c, r)
    ensures AnswersAll(env, log, st.now, c, r) <==> LogWithinCaps(env, log, st.now, c)
  {
    var order :| Scans(st, c, order, r.services);
    var ranking :| Ranks(env, st, r.services, ranking)
                   && r.instances == AdsOf(Take(ranking, INSTANCE_COUNT + 1));
    ServicesHashBack(env, st, log, c, order, r.services);
    ProvidersValid(env, st, log);
    AnswersAllIff(env, st, log, c, r, order, ranking);
    StoreShowsAllIff(env, st, r.services, order, ranking);
    CapsOfLog(env, st, log, c, order);
  }

  // ---------- The order of the answer ----------

  /** The advertisement has this score in a service listing `c`. */
  ghost predicate ScoredFor(env: Env, log: seq<Registration>, now: int, c: string, x: AdWithScore) {
    exists h :: h in Listing(env, log, now, c) && WellRanked(env, log, now, h, x)
  }

  lemma ShownWellRanked(env: Env, st: Store, log: seq<Registration>, h: string, x: AdWithScore)
    requires Agree(env, st, log) && x in Shown(st, h)
    ensures WellRanked(env, log, st.now, h, x)
  {
    var z := Ranked(st, h);
    var head := Take(z, INSTANCE_COUNT + 1);
    ProvidersValid(env, st, log);
    assert Z.Ordered(head);
    LiveAdsRanked(st, head);
    assert x in LiveAds(st, head);
    var e :| e in head && e.score == x.score && LiveMember(st, e.member) && st.ads[e.member].value == x.ad;
    assert e in z;
    LiveAdWellRanked(env, st, log, h, e, x);
  }

  lemma {:induction false} InConcat(parts: seq<seq<AdWithScore>>, n: nat, x: AdWithScore)
    requires n <= |parts|
    ensures x in Concat(parts, n) <==> exists i :: 0 <= i < n && x in parts[i]
  {
    if n > 0 {
      InConcat(parts, n - 1, x);
    }
  }

  /** The candidates of a search: what each service found shows. */
  lemma CandidateIff(env: Env, st: Store, services: seq<VirtualService>, order: seq<string>, x: AdWithScore)
    requires Served(env, st, services, order)
    ensures x in Gather(env, st, services) <==> exists h :: h in Elements(order) && x in Shown(st, h)
  {
    var parts := Parts(st, order);
    GatheredParts(env, st, services, order);
    InConcat(parts, |order|, x);
    if i :| 0 <= i < |order| && x in parts[i] {
      assert order[i] in Elements(order) && x in Shown(st, order[i]);
    }
    if h :| h in Elements(order) && x in Shown(st, h) {
      var i :| 0 <= i < |order| && order[i] == h;
      assert x in parts[i];
    }
  }

  /** What SearchCid answers, in every run: at most 101 advertisements in ascending order of
      their scores, each score the largest stamp its provider submitted in the streak of a
      service listing `c`, and no candidate that is left out has a smaller one. */
  lemma AnswersInOrder(env: Env, start: int, events: seq<Event>, c: string, r: SearchCidResponse)
    returns (scores: seq<int>)
    requires IsAnswer(env, Run(env, start, events).store, c, r)
    ensures var w := Run(env, start, events); InOrder(env, w.store, w.log, c, r, scores)
  {
    EveryRunAgrees(env, start, events);
    var w := Run(env, start, events);
    scores := AgreedInOrder(env, w.store, w.log, c, r);
  }

  ghost predicate ScoresFor(env: Env, st: Store, log: seq<Registration>, c: string, r: SearchCidResponse, scores: seq<int>) {
    && |scores| == |r.instances| <= 101
    && (forall i, j :: 0 <= i < j < |scores| ==> scores[i] <= scores[j])
    && (forall i :: 0 <= i < |scores| ==> ScoredFor(env, log, st.now, c, AdWithScore(scores[i], r.instances[i])))
  }

  ghost predicate LeavesOutHigher(env: Env, st: Store, log: seq<Registration>, c: string, r: SearchCidResponse, scores: seq<int>) {
    forall h, x, i ::
      h in Listing(env, log, st.now, c) && x in SearchInstances(st, h, 100) && x.ad !in r.instances
      && 0 <= i < |scores| ==>
        scores[i] <= x.score
  }

  ghost predicate InOrder(env: Env, st: Store, log: seq<Registration>, c: string, r: SearchCidResponse, scores: seq<int>) {
    ScoresFor(env, st, log, c, r, scores) && LeavesOutHigher(env, st, log, c, r, scores)
  }

  lemma TakenIsShown(ranking: seq<AdWithScore>, n: nat, k: nat)
    requires k < |Take(ranking, n)|
    ensures ranking[k].ad in AdsOf(Take(ranking, n))
  {
    assert AdsOf(Take(ranking, n))[k] == ranking[k].ad;
  }

  lemma LeftOutScores(ranking: seq<AdWithScore>, n: nat, x: AdWithScore, i: nat)
    requires Ascending(ranking) && x in ranking && i < |Take(ranking, n)|
    requires x.ad !in AdsOf(Take(ranking, n))
    ensures ranking[i].score <= x.score
  {
    var k :| 0 <= k < |ranking| && ranking[k] == x;
    if k < |Take(ranking, n)| {
      TakenIsShown(ranking, n, k);
    }
  }

  function ScoresOf(s: seq<AdWithScore>): seq<int> {
    seq(|s|, i requires 0 <= i < |s| => s[i].score)
  }

  lemma TopScores(env: Env, st: Store, log: seq<Registration>, c: string, r: SearchCidResponse,
                  order: seq<string>, ranking: seq<AdWithScore>)
    requires Agree(env, st, log) && Served(env, st, r.services, order) && Ranks(env, st, r.services, ranking)
    requires Elements(order) == Listing(env, log, st.now, c)
    requires r.instances == AdsOf(Take(ranking, INSTANCE_COUNT + 1))
    ensures ScoresFor(env, st, log, c, r, ScoresOf(Take(ranking, INSTANCE_COUNT + 1)))
  {
    var top := Take(ranking, INSTANCE_COUNT + 1);
    var scores := ScoresOf(top);
    forall i | 0 <= i < |top| ensures ScoredFor(env, log, st.now, c, AdWithScore(scores[i], r.instances[i])) {
      assert ranking[i] == AdWithScore(scores[i], r.instances[i]);
      RankedIsScored(env, st, log, c, r.services, order, ranking, i);
    }
  }

  lemma TopLeavesOutHigher(env: Env, st: Store, log: seq<Registration>, c: string, r: SearchCidResponse,
                           order: seq<string>, ranking: seq<AdWithScore>)
    requires Served(env, st, r.services, order) && Ranks(env, st, r.services, ranking)
    requires Elements(order) == Listing(env, log, st.now, c)
    requires r.instances == AdsOf(Take(ranking, INSTANCE_COUNT + 1))
    ensures LeavesOutHigher(env, st, log, c, r, ScoresOf(Take(ranking, INSTANCE_COUNT + 1)))
  {
    var scores := ScoresOf(Take(ranking, INSTANCE_COUNT + 1));
    forall h, x, i | h in Listing(env, log, st.now, c) && x in SearchInstances(st, h, 100)
                     && x.ad !in r.instances && 0 <= i < |scores|
      ensures scores[i] <= x.score
    {
      assert x in Shown(st, h);
      CandidateIff(env, st, r.services, order, x);
      assert x in multiset(ranking);
      LeftOutScores(ranking, INSTANCE_COUNT + 1, x, i);
    }
  }

  lemma AgreedInOrder(env: Env, st: Store, log: seq<Registration>, c: string, r: SearchCidResponse)
    returns (scores: seq<int>)
    requires Agree(env, st, log) && IsAnswer(env, st, c, r)
    ensures InOrder(env, st, log, c, r, scores)
  {
    var order :| Scans(st, c, order, r.services);
    var ranking :| Ranks(env, st, r.services, ranking)
                   && r.instances == AdsOf(Take(ranking, INSTANCE_COUNT + 1));
    ServicesHashBack(env, st, log, c, order, r.services);
    ListingIsFound(env, st, log, c);
    scores := ScoresOf(Take(ranking, INSTANCE_COUNT + 1));
    TopScores(env, st, log, c, r, order, ranking);
    TopLeavesOutHigher(env, st, log, c, r, order, ranking);
  }

  lemma RankedIsScored(env: Env, st: Store, log: seq<Registration>, c: string, services: seq<VirtualService>,
                       order: seq<string>, ranking: seq<AdWithScore>, i: nat)
    requires Agree(env, st, log) && Served(env, st, services, order) && Ranks(env, st, services, ranking)
    requires Elements(order) == Listing(env, log, st.now, c) && i < |ranking|
    ensures ScoredFor(env, log, st.now, c, ranking[i])
  {
    var x := ranking[i];
    assert x in multiset(ranking);
    CandidateIff(env, st, services, order, x);
    var h :| h in Elements(order) && x in Shown(st, h);
    ShownWellRanked(env, st, log, h, x);
  }
}

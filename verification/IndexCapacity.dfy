/** When SearchInstance shows every provider it should, in terms of the log of registrations:
    stale providers keep their ranks, and only the first 101 ranks are looked at. */
module IndexCapacity {
  import opened Common
  import opened ProviderIndex
  import opened IndexLog
  import opened IndexSearch
  import Z = SortedSets
  import E = EntryIds

  /** The providers taking part in the latest unbroken streak of `h`. */
  ghost function Members(env: Env, log: seq<Registration>, h: string): set<string> {
    set i | i in ServiceStreak(env, log, h) :: log[i].ad.provider.did
  }

  /** What `did` registered last, for whatever service, is under DEFAULT_TTL old. */
  ghost predicate IsCurrent(env: Env, log: seq<Registration>, now: int, did: string) {
    var k := Latest(env, log, OfProvider(did));
    k >= 0 && Alive(now, log[k].time + DEFAULT_TTL)
  }

  /** The providers of `h` a search should show. */
  ghost function Current(env: Env, log: seq<Registration>, now: int, h: string): set<string> {
    set did | did in Members(env, log, h) && KnownNow(env, log, now, h) && IsCurrent(env, log, now, did)
  }

  /** In the streak of `h`, `other` has the smaller top stamp, or an equal one and the smaller
      name. */
  ghost predicate RanksAhead(env: Env, log: seq<Registration>, h: string, other: string, did: string) {
    exists s, t :: IsTopStamp(log, Streak(env, log, h, other), s)
                   && IsTopStamp(log, Streak(env, log, h, did), t)
                   && Z.Before(Z.Entry(s, other), Z.Entry(t, did))
  }

  ghost function Ahead(env: Env, log: seq<Registration>, h: string, did: string): set<string> {
    set other | other in Members(env, log, h) && RanksAhead(env, log, h, other, did)
  }

  function MembersOf(z: seq<Z.Entry>): set<string> {
    set e | e in z :: e.member
  }

  /** The members of a ranking whose advertisement can be read. */
  function LiveDids(st: Store, z: seq<Z.Entry>): set<string> {
    set e | e in z && LiveMember(st, e.member) :: e.member
  }

  /** The providers behind a list of results. */
  function DidsOf(s: seq<AdWithScore>): set<string> {
    set x | x in s :: x.ad.provider.did
  }

  lemma {:induction false} DidsOfSize(s: seq<AdWithScore>)
    ensures |DidsOf(s)| <= |s|
  {
    if s != [] {
      var n := |s| - 1;
      DidsOfSize(s[..n]);
      assert s == s[..n] + [s[n]];
      assert DidsOf(s) == DidsOf(s[..n]) + {s[n].ad.provider.did};
    }
  }

  lemma {:induction false} MembersOfSize(z: seq<Z.Entry>)
    requires DistinctMembers(z)
    ensures |MembersOf(z)| == |z|
  {
    if z != [] {
      var n := |z| - 1;
      MembersOfSize(z[..n]);
      assert z == z[..n] + [z[n]];
      assert MembersOf(z) == MembersOf(z[..n]) + {z[n].member};
      assert z[n].member !in MembersOf(z[..n]);
    }
  }

  lemma DidsOfNext(s: seq<AdWithScore>, x: AdWithScore)
    requires |DidsOf(s)| == |s| && x.ad.provider.did !in DidsOf(s)
    ensures DidsOf(s + [x]) == DidsOf(s) + {x.ad.provider.did}
    ensures |DidsOf(s + [x])| == |s| + 1
  {
    assert DidsOf(s + [x]) == DidsOf(s) + {x.ad.provider.did};
  }

  lemma LiveDidsNext(st: Store, z: seq<Z.Entry>, e: Z.Entry)
    ensures LiveDids(st, z + [e]) == LiveDids(st, z) + if LiveMember(st, e.member) then {e.member} else {}
  {
  }

  /** The live advertisements of a ranking are those of its live members, one of each. */
  ghost predicate Represented(found: seq<AdWithScore>, dids: set<string>) {
    DidsOf(found) == dids && |found| == |dids|
  }

  lemma RepresentedNext(st: Store, z: seq<Z.Entry>, e: Z.Entry)
    requires OwnAds(st) && Represented(LiveAds(st, z), LiveDids(st, z)) && e.member !in LiveDids(st, z)
    ensures Represented(LiveAds(st, z + [e]), LiveDids(st, z + [e]))
  {
    LiveDidsNext(st, z, e);
    LiveAdsNext(st, z, e);
    if LiveMember(st, e.member) {
      DidsOfNext(LiveAds(st, z), AdWithScore(e.score, st.ads[e.member].value));
    } else {
      assert LiveAds(st, z) + [] == LiveAds(st, z);
    }
  }

  lemma NextIsNew(st: Store, z: seq<Z.Entry>, n: nat)
    requires n < |z| && DistinctMembers(z)
    ensures z[n].member !in LiveDids(st, z[..n])
    ensures z[..n + 1] == z[..n] + [z[n]]
  {
  }

  lemma NoneRepresented(st: Store)
    ensures Represented(LiveAds(st, []), LiveDids(st, []))
  {
    assert DidsOf([]) == {} == LiveDids(st, []);
  }

  lemma {:induction false} PrefixRepresented(st: Store, z: seq<Z.Entry>, n: nat)
    requires OwnAds(st) && DistinctMembers(z) && n <= |z|
    ensures Represented(LiveAds(st, z[..n]), LiveDids(st, z[..n]))
  {
    if n > 0 {
      PrefixRepresented(st, z, n - 1);
      NextIsNew(st, z, n - 1);
      RepresentedNext(st, z[..n - 1], z[n - 1]);
    } else {
      NoneRepresented(st);
      assert z[..0] == [];
    }
  }

  lemma LiveAdsAreOfLiveDids(st: Store, z: seq<Z.Entry>)
    requires OwnAds(st) && DistinctMembers(z)
    ensures Represented(LiveAds(st, z), LiveDids(st, z))
  {
    PrefixRepresented(st, z, |z|);
    assert z[..|z|] == z;
  }

  lemma MembersIff(env: Env, log: seq<Registration>, h: string, did: string)
    ensures did in Members(env, log, h) <==> Streak(env, log, h, did) != {}
  {
    if i :| i in Streak(env, log, h, did) {
      assert i in ServiceStreak(env, log, h);
    }
    if did in Members(env, log, h) {
      var i :| i in ServiceStreak(env, log, h) && log[i].ad.provider.did == did;
      assert i in Streak(env, log, h, did);
    }
  }

  /** The providers to show are the ranked ones with a live advertisement. */
  lemma CurrentIsLive(env: Env, st: Store, log: seq<Registration>, h: string)
    requires Agree(env, st, log)
    ensures Current(env, log, st.now, h) == LiveDids(st, Readable(st.providers, h, st.now, []))
  {
    var z := Readable(st.providers, h, st.now, []);
    KnownIff(env, st, log, h);
    assert ProvidersAgree(env, st, log, h);
    forall did ensures did in Current(env, log, st.now, h) <==> did in LiveDids(st, z) {
      MembersIff(env, log, h, did);
      assert AdAgrees(env, st, log, did);
      assert KnownNow(env, log, st.now, h) ==> (Z.Has(z, did) <==> did in Members(env, log, h));
    }
  }

  lemma RanksAheadIff(env: Env, log: seq<Registration>, h: string, x: Z.Entry, y: Z.Entry)
    requires IsTopStamp(log, Streak(env, log, h, x.member), x.score)
    requires IsTopStamp(log, Streak(env, log, h, y.member), y.score)
    ensures RanksAhead(env, log, h, x.member, y.member) <==> Z.Before(x, y)
  {
    assert x == Z.Entry(x.score, x.member) && y == Z.Entry(y.score, y.member);
  }

  lemma AheadIffBefore(env: Env, st: Store, log: seq<Registration>, h: string, i: nat, j: nat)
    requires ProvidersAgree(env, st, log, h)
    requires h in st.providers && i < |st.providers[h].value| && j < |st.providers[h].value|
    ensures var z := st.providers[h].value;
            z[j].member in Ahead(env, log, h, z[i].member) <==> j < i
  {
    var z := st.providers[h].value;
    assert z[j] in z && z[i] in z;
    MembersIff(env, log, h, z[j].member);
    RanksAheadIff(env, log, h, z[j], z[i]);
    RankOrder(z, j, i);
  }

  lemma AheadIsRanked(env: Env, st: Store, log: seq<Registration>, h: string, i: nat, did: string)
    returns (j: nat)
    requires ProvidersAgree(env, st, log, h)
    requires h in st.providers && i < |st.providers[h].value|
    requires did in Ahead(env, log, h, st.providers[h].value[i].member)
    ensures j < i && st.providers[h].value[j].member == did
  {
    var z := st.providers[h].value;
    MembersIff(env, log, h, did);
    var x :| x in z && x.member == did;
    j :| 0 <= j < |z| && z[j] == x;
    AheadIffBefore(env, st, log, h, i, j);
  }

  /** The rank of a provider is the number of providers ahead of it. */
  lemma RankIsAhead(env: Env, st: Store, log: seq<Registration>, h: string, i: nat)
    requires ProvidersAgree(env, st, log, h)
    requires h in st.providers && i < |st.providers[h].value|
    ensures |Ahead(env, log, h, st.providers[h].value[i].member)| == i
  {
    var z := st.providers[h].value;
    var before := z[..i];
    ValidIsDistinct(z);
    MembersOfSize(before);
    var ahead := Ahead(env, log, h, z[i].member);
    forall did | did in ahead ensures did in MembersOf(before) {
      var j := AheadIsRanked(env, st, log, h, i, did);
      assert before[j] == z[j];
    }
    forall did | did in MembersOf(before) ensures did in ahead {
      var j :| 0 <= j < |before| && before[j].member == did;
      assert before[j] == z[j];
      AheadIffBefore(env, st, log, h, i, j);
    }
    assert ahead == MembersOf(before);
  }

  lemma RankOrder(z: seq<Z.Entry>, j: nat, i: nat)
    requires Z.Ordered(z) && j < |z| && i < |z|
    ensures Z.Before(z[j], z[i]) <==> j < i
  {
    Z.BeforeTotal(z[i], z[j]);
  }

  ghost function RankMap(env: Env, log: seq<Registration>, h: string, z: seq<Z.Entry>): map<string, int> {
    map did | did in MembersOf(z) :: |Ahead(env, log, h, did)|
  }

  lemma AheadGivesRanks(env: Env, st: Store, log: seq<Registration>, h: string)
    requires ProvidersAgree(env, st, log, h)
    ensures var z := Readable(st.providers, h, st.now, []); GivesRanks(z, RankMap(env, log, h, z))
  {
    var z := Readable(st.providers, h, st.now, []);
    forall i | 0 <= i < |z| ensures z[i].member in MembersOf(z) && |Ahead(env, log, h, z[i].member)| == i {
      assert z[i] in z;
      RankIsAhead(env, st, log, h, i);
    }
  }

  /** SearchInstance shows every provider of the streak whose own latest registration is under
      DEFAULT_TTL old exactly when there are at most 100 of them and each has at most 100
      members of the streak ahead of it, stale or not. */
  lemma SearchInstanceCompleteIff(env: Env, start: int, events: seq<Event>, h: string)
    ensures var w := Run(env, start, events);
            var current := Current(env, w.log, w.store.now, h);
            current <= DidsOf(SearchInstances(w.store, h, INSTANCE_COUNT)) <==>
            && |current| <= 100
            && forall did :: did in current ==> |Ahead(env, w.log, h, did)| <= 100
  {
    var w := Run(env, start, events);
    EveryRunAgrees(env, start, events);
    AgreementCompleteIff(env, w.store, w.log, h);
  }

  lemma AgreementCompleteIff(env: Env, st: Store, log: seq<Registration>, h: string)
    requires Agree(env, st, log)
    ensures var current := Current(env, log, st.now, h);
            current <= DidsOf(SearchInstances(st, h, INSTANCE_COUNT)) <==>
            && |current| <= INSTANCE_COUNT
            && forall did :: did in current ==> |Ahead(env, log, h, did)| <= INSTANCE_COUNT
  {
    var z := Readable(st.providers, h, st.now, []);
    ProvidersValid(env, st, log);
    CurrentIsLive(env, st, log, h);
    AheadGivesRanks(env, st, log, h) by {
      assert ProvidersAgree(env, st, log, h);
    }
    CompleteIff(st, h, RankMap(env, log, h, z));
    assert forall did :: did in LiveDids(st, z) ==> did in MembersOf(z);
  }

  /** Each ranked member with its rank. */
  ghost predicate GivesRanks(z: seq<Z.Entry>, rank: map<string, int>) {
    forall i :: 0 <= i < |z| ==> z[i].member in rank && rank[z[i].member] == i
  }

  lemma HeadIffRank(st: Store, z: seq<Z.Entry>, rank: map<string, int>, n: nat, did: string)
    requires GivesRanks(z, rank) && did in LiveDids(st, z)
    ensures did in rank && (did in LiveDids(st, Take(z, n)) <==> rank[did] < n)
  {
    var head := Take(z, n);
    var i :| 0 <= i < |z| && z[i].member == did;
    if did in LiveDids(st, head) {
      var k :| 0 <= k < |head| && head[k].member == did;
      assert head[k] == z[k];
    }
    if i < n {
      assert head[i] == z[i];
    }
  }

  /** The same over the stored ranking. */
  lemma CompleteIff(st: Store, h: string, rank: map<string, int>)
    requires OwnAds(st) && Z.Valid(Readable(st.providers, h, st.now, []))
    requires GivesRanks(Readable(st.providers, h, st.now, []), rank)
    ensures var live := LiveDids(st, Readable(st.providers, h, st.now, []));
            live <= DidsOf(SearchInstances(st, h, INSTANCE_COUNT)) <==>
            && |live| <= INSTANCE_COUNT
            && forall did :: did in live ==> did in rank && rank[did] <= INSTANCE_COUNT
  {
    var z := Readable(st.providers, h, st.now, []);
    var head := Take(z, INSTANCE_COUNT + 1);
    var live := LiveDids(st, z);
    ValidIsDistinct(z);
    LiveAdsAreOfLiveDids(st, head);
    forall did | did in live
      ensures did in rank && (did in LiveDids(st, head) <==> rank[did] <= INSTANCE_COUNT)
    {
      HeadIffRank(st, z, rank, INSTANCE_COUNT + 1, did);
    }
    CutShowsAllIff(LiveAds(st, head), live, LiveDids(st, head));
  }

  lemma CutShowsAllIff(found: seq<AdWithScore>, live: set<string>, early: set<string>)
    requires DidsOf(found) == early <= live && |found| == |early|
    ensures live <= DidsOf(Take(found, INSTANCE_COUNT)) <==> |live| <= INSTANCE_COUNT && live <= early
  {
    var shown := Take(found, INSTANCE_COUNT);
    DidsOfSize(shown);
    assert DidsOf(shown) <= early;
    if live <= DidsOf(shown) {
      SubsetSize(live, DidsOf(shown));
    }
    if |live| <= INSTANCE_COUNT && live <= early {
      assert live == early;
      assert shown == found;
    }
  }

  lemma SubsetSize(a: set<string>, b: set<string>)
    requires a <= b
    ensures |a| <= |b|
  {
    assert b == a + (b - a);
  }

  // ---------- Which ones are missed ----------

  lemma NextIsTaken(found: seq<AdWithScore>, early: seq<AdWithScore>, next: AdWithScore, n: nat)
    requires early + [next] <= found && |early| < n
    ensures next in Take(found, n)
  {
    assert found[|early|] == (early + [next])[|early|];
    assert Take(found, n)[|early|] == next;
  }

  lemma TakenBefore(found: seq<AdWithScore>, early: seq<AdWithScore>, next: AdWithScore, n: nat, x: AdWithScore)
    requires early + [next] <= found && x in Take(found, n) && next !in Take(found, n)
    ensures x in early
  {
    if |early| < n {
      NextIsTaken(found, early, next, n);
    } else {
      var k :| 0 <= k < |Take(found, n)| && Take(found, n)[k] == x;
      assert early[k] == (early + [next])[k] == x;
    }
  }

  lemma LiveAdsUpTo(st: Store, z: seq<Z.Entry>, j: nat)
    requires j < |z| && LiveMember(st, z[j].member)
    ensures LiveAds(st, z[..j]) + [AdWithScore(z[j].score, st.ads[z[j].member].value)] <= LiveAds(st, z)
  {
    LiveAdsPrefix(st, z, j + 1);
    LiveAdsAt(st, z, j);
  }

  /** The first `n` live advertisements come from before any rank that they leave out. */
  lemma LeftOutIsLater(st: Store, z: seq<Z.Entry>, n: nat, j: nat, x: AdWithScore)
    requires OwnAds(st) && DistinctMembers(z) && j < |z| && LiveMember(st, z[j].member)
    requires x in Take(LiveAds(st, z), n) && z[j].member !in DidsOf(Take(LiveAds(st, z), n))
    ensures x.ad.provider.did in LiveDids(st, z[..j])
  {
    var next := AdWithScore(z[j].score, st.ads[z[j].member].value);
    LiveAdsUpTo(st, z, j);
    assert next.ad.provider.did == z[j].member;
    TakenBefore(LiveAds(st, z), LiveAds(st, z[..j]), next, n, x);
    FoundIsLive(st, z[..j], z[..j], x);
  }

  lemma FoundIsLive(st: Store, head: seq<Z.Entry>, z: seq<Z.Entry>, x: AdWithScore)
    requires OwnAds(st) && DistinctMembers(head) && head <= z && x in LiveAds(st, head)
    ensures x.ad.provider.did in LiveDids(st, z)
  {
    LiveAdsAreOfLiveDids(st, head);
    assert x.ad.provider.did in DidsOf(LiveAds(st, head));
    var e :| e in head && e.member == x.ad.provider.did && LiveMember(st, e.member);
    assert e in z;
  }

  lemma HeadLeavesOutLater(st: Store, z: seq<Z.Entry>, j: nat, x: AdWithScore)
    requires OwnAds(st) && DistinctMembers(z) && j < |z| && LiveMember(st, z[j].member)
    requires var shown := Take(LiveAds(st, Take(z, INSTANCE_COUNT + 1)), INSTANCE_COUNT);
             x in shown && z[j].member !in DidsOf(shown)
    ensures x.ad.provider.did in LiveDids(st, z[..j])
  {
    var head := Take(z, INSTANCE_COUNT + 1);
    if j < |head| {
      LeftOutIsLater(st, head, INSTANCE_COUNT, j, x);
      assert head[..j] == z[..j];
    } else {
      assert x in LiveAds(st, head);
      assert head <= z[..j];
      FoundIsLive(st, head, z[..j], x);
    }
  }

  /** In every run, a provider that should be shown and is not ranks behind all that are. */
  lemma MissedRankLast(env: Env, start: int, events: seq<Event>, h: string, did: string, x: AdWithScore)
    ensures var w := Run(env, start, events);
            var shown := SearchInstances(w.store, h, INSTANCE_COUNT);
            did in Current(env, w.log, w.store.now, h) && did !in DidsOf(shown) && x in shown ==>
              RanksAhead(env, w.log, h, x.ad.provider.did, did)
  {
    EveryRunAgrees(env, start, events);
    var w := Run(env, start, events);
    var shown := SearchInstances(w.store, h, INSTANCE_COUNT);
    if did in Current(env, w.log, w.store.now, h) && did !in DidsOf(shown) && x in shown {
      AgreedMissedRankLast(env, w.store, w.log, h, did, x);
    }
  }

  lemma AgreedMissedRankLast(env: Env, st: Store, log: seq<Registration>, h: string, did: string, x: AdWithScore)
    requires Agree(env, st, log)
    requires var shown := SearchInstances(st, h, INSTANCE_COUNT);
             did in Current(env, log, st.now, h) && did !in DidsOf(shown) && x in shown
    ensures RanksAhead(env, log, h, x.ad.provider.did, did)
  {
    var z := Readable(st.providers, h, st.now, []);
    ProvidersValid(env, st, log);
    CurrentIsLive(env, st, log, h);
    ValidIsDistinct(z);
    var j :| 0 <= j < |z| && z[j].member == did;
    HeadLeavesOutLater(st, z, j, x);
    var i :| 0 <= i < j && z[..j][i].member == x.ad.provider.did;
    assert z[i] in z && z[j] in z && Z.Before(z[i], z[j]);
    assert ProvidersAgree(env, st, log, h);
    RanksAheadIff(env, log, h, z[i], z[j]);
  }

  // ---------- A run in which a live provider is missed ----------

  const DAY := 24 * 60 * 60 * 1000

  const LATE_DID := "did:example:late"

  function EarlyDid(i: nat): string {
    "did:example:" + E.PrintNat(i)
  }

  function By(ad: Advertisement, did: string): Advertisement {
    ad.(provider := ad.provider.(did := did))
  }

  /** `n` providers register on day 0. */
  function Crowd(ad: Advertisement, n: nat): seq<Event> {
    if n == 0 then [] else Crowd(ad, n - 1) + [Submit(By(ad, EarlyDid(n - 1)), 0)]
  }

  /** The crowd, one more provider on day 6, and then day 8. */
  function CrowdThenLate(ad: Advertisement, n: nat): seq<Event> {
    Crowd(ad, n) + [Advance(6 * DAY)] + [Submit(By(ad, LATE_DID), 6 * DAY)] + [Advance(2 * DAY)]
  }

  lemma EarlyDidsDiffer(i: nat, j: nat)
    requires i != j
    ensures EarlyDid(i) != EarlyDid(j)
  {
    E.DigitsValueOfPrinted(i);
    E.DigitsValueOfPrinted(j);
    assert EarlyDid(i)[12..] == E.PrintNat(i) && EarlyDid(j)[12..] == E.PrintNat(j);
  }

  lemma EarlyIsNotLate(i: nat)
    ensures EarlyDid(i) != LATE_DID
  {
    assert EarlyDid(i)[12] == E.PrintNat(i)[0];
    assert E.IsDigit(E.PrintNat(i)[0]);
  }

  /** The index on day 0 after `n` providers registered: all ranked, all expiring together. */
  ghost predicate Crowded(st: Store, h: string, n: nat) {
    && st.now == 0
    && (forall did :: did in st.ads ==> did != LATE_DID && st.ads[did].expiry == DEFAULT_TTL)
    && (h in st.providers <==> n > 0)
    && (n > 0 ==>
          && st.providers[h].expiry == DEFAULT_TTL
          && Z.Valid(st.providers[h].value) && |st.providers[h].value| == n
          && forall x :: x in st.providers[h].value ==>
               x.score == 0 && x.member != LATE_DID && exists i: nat :: i < n && x.member == EarlyDid(i))
  }

  lemma CrowdGrows(env: Env, st: Store, ad: Advertisement, n: nat)
    requires Crowded(st, env.serviceHash(ad.service), n)
    ensures Crowded(Register(env, st, By(ad, EarlyDid(n)), 0), env.serviceHash(ad.service), n + 1)
  {
    var h := env.serviceHash(ad.service);
    var did := EarlyDid(n);
    var z := Readable(st.providers, h, st.now, []);
    EarlyIsNotLate(n);
    forall x | x in z ensures x.member != did {
      var i: nat :| i < n && x.member == EarlyDid(i);
      EarlyDidsDiffer(i, n);
    }
    Z.AddGTMeaning(z, did, 0);
    var z' := Z.AddGT(z, did, 0);
    forall x | x in z' ensures exists i: nat :: i < n + 1 && x.member == EarlyDid(i) {
      if x.member != did {
        var i: nat :| i < n && x.member == EarlyDid(i);
        assert i < n + 1;
      }
    }
  }

  lemma {:induction false} CrowdRuns(env: Env, ad: Advertisement, n: nat)
    requires Accepts(env, ad)
    ensures Crowded(Run(env, 0, Crowd(ad, n)).store, env.serviceHash(ad.service), n)
  {
    if n > 0 {
      CrowdRuns(env, ad, n - 1);
      var e := Submit(By(ad, EarlyDid(n - 1)), 0);
      RunMore(env, 0, Crowd(ad, n - 1), e);
      CrowdGrows(env, Run(env, 0, Crowd(ad, n - 1)).store, ad, n - 1);
    }
  }

  /** The late provider ranks last, with the only live advertisement. */
  ghost predicate LateIsLast(st: Store, h: string, n: nat) {
    && h in st.providers && Alive(st.now, st.providers[h].expiry)
    && |st.providers[h].value| == n + 1
    && st.providers[h].value[n].member == LATE_DID
    && LiveMember(st, LATE_DID)
    && forall i :: 0 <= i < n ==> !LiveMember(st, st.providers[h].value[i].member)
  }

  /** A member with the only positive score ranks last. */
  lemma HighestRanksLast(z: seq<Z.Entry>, m: string, s: int)
    requires Z.Valid(z) && s > 0
    requires forall x :: x in z ==> x.score == 0 && x.member != m
    ensures var after := Z.AddGT(z, m, s);
            && |after| == |z| + 1 && after[|z|].member == m
            && forall i :: 0 <= i < |z| ==> after[i].member != m
  {
    Z.AddGTMeaning(z, m, s);
    var after := Z.AddGT(z, m, s);
    var last := Z.Entry(s, m);
    assert last in after;
    var k :| 0 <= k < |after| && after[k] == last;
    if k < |z| {
      assert Z.Before(after[k], after[|z|]) && after[|z|] in after;
    }
    forall i | 0 <= i < |z| ensures after[i].member != m {
      assert Z.Before(after[i], after[|z|]) && after[i] in after;
      Z.BeforeTotal(last, last);
    }
  }

  lemma LateJoins(env: Env, st: Store, ad: Advertisement, n: nat)
    requires Crowded(st, env.serviceHash(ad.service), n)
    ensures var after := Register(env, st.(now := 6 * DAY), By(ad, LATE_DID), 6 * DAY);
            LateIsLast(after.(now := 8 * DAY), env.serviceHash(ad.service), n)
  {
    HighestRanksLast(Readable(st.providers, env.serviceHash(ad.service), 6 * DAY, []), LATE_DID, 6 * DAY);
  }

  lemma {:induction false} NoLiveAds(st: Store, z: seq<Z.Entry>)
    requires forall i :: 0 <= i < |z| ==> !LiveMember(st, z[i].member)
    ensures LiveAds(st, z) == []
  {
    if z != [] {
      NoLiveAds(st, z[..|z| - 1]);
    }
  }

  /** Whatever is advertised: 101 providers that register on day 0 and go stale on day 7 hide
      one that registered on day 6 from every search on day 8. */
  lemma LateProviderIsMissed(env: Env, ad: Advertisement, n: nat)
    requires Accepts(env, ad) && n > INSTANCE_COUNT
    ensures var h := env.serviceHash(ad.service);
            var w := Run(env, 0, CrowdThenLate(ad, n));
            && LATE_DID in Current(env, w.log, w.store.now, h)
            && SearchInstances(w.store, h, INSTANCE_COUNT) == []
  {
    var h := env.serviceHash(ad.service);
    var w := Run(env, 0, CrowdThenLate(ad, n));
    LateRuns(env, ad, n);
    EveryRunAgrees(env, 0, CrowdThenLate(ad, n));
    CurrentIsLive(env, w.store, w.log, h);
    var z := w.store.providers[h].value;
    assert z[n] in z;
    NoLiveAds(w.store, Take(z, INSTANCE_COUNT + 1));
  }

  lemma LateSteps(env: Env, w: World, ad: Advertisement, n: nat)
    requires Accepts(env, ad) && Crowded(w.store, env.serviceHash(ad.service), n)
    ensures var later := Step(env, Step(env, w, Advance(6 * DAY)), Submit(By(ad, LATE_DID), 6 * DAY));
            LateIsLast(Step(env, later, Advance(2 * DAY)).store, env.serviceHash(ad.service), n)
  {
    assert Accepts(env, By(ad, LATE_DID));
    LateJoins(env, w.store, ad, n);
  }

  lemma RunThreeMore(env: Env, start: int, events: seq<Event>, a: Event, b: Event, c: Event)
    ensures Run(env, start, events + [a] + [b] + [c]) ==
            Step(env, Step(env, Step(env, Run(env, start, events), a), b), c)
  {
    RunMore(env, start, events, a);
    RunMore(env, start, events + [a], b);
    RunMore(env, start, events + [a] + [b], c);
  }

  lemma LateRuns(env: Env, ad: Advertisement, n: nat)
    requires Accepts(env, ad)
    ensures LateIsLast(Run(env, 0, CrowdThenLate(ad, n)).store, env.serviceHash(ad.service), n)
  {
    CrowdRuns(env, ad, n);
    LateSteps(env, Run(env, 0, Crowd(ad, n)), ad, n);
    RunThreeMore(env, 0, Crowd(ad, n), Advance(6 * DAY), Submit(By(ad, LATE_DID), 6 * DAY), Advance(2 * DAY));
  }
}

/** The provider index of internal/api/virtual_service.go and internal/api/index.go: five
    Redis structures, each with its own expiry, written by RegisterInstance and read by
    SearchInstance and SearchCid. */
module ProviderIndex {
  import opened Common
  import opened Cids
  import Z = SortedSets

  /** Seven days in milliseconds. */
  const DEFAULT_TTL := 7 * 24 * 60 * 60 * 1000

  const INSTANCE_COUNT: nat := 100

  datatype GlobalLink = GlobalLink(
    name: string, maintainer: string, version: string,
    displayName: string, description: string, signature: string)

  datatype VirtualService = VirtualService(behavior: GlobalLink, variant: GlobalLink)

  datatype Instance = Instance(did: string, peerId: string, multiaddrs: seq<string>)

  /** `terms` stands for the fields the index only carries along: price, coin, exchanges,
      times, signature. */
  datatype Advertisement = Advertisement(
    provider: Instance, service: VirtualService, cids: seq<string>, terms: string)

  const SERVE_ALL_BEHAVIOR :=
    GlobalLink("serve_all", "did:example:foo", "v0.1.0", "", "", "")

  /** The hashes and text encodings the index is built on, left opaque. */
  datatype Env = Env(
    codec: Codec,
    linkHash: GlobalLink -> string,
    serviceHash: VirtualService -> string,
    merkleRoot: seq<Cid> -> string)

  function FoldChar(c: char): char {
    if 'A' <= c <= 'Z' then c - 'A' + 'a' else c
  }

  /** strings.EqualFold on the base58 alphabet. */
  predicate EqualFold(a: string, b: string) {
    |a| == |b| && forall i :: 0 <= i < |a| ==> FoldChar(a[i]) == FoldChar(b[i])
  }

  predicate IsBehaviorMatching(env: Env, link: GlobalLink) {
    EqualFold(env.linkHash(link), env.linkHash(SERVE_ALL_BEHAVIOR))
  }

  predicate IsLetter(c: char) {
    'a' <= c <= 'z' || 'A' <= c <= 'Z'
  }

  /** Different strings that have the same letters, in different cases, at the same places. */
  predicate CaseVariants(a: string, b: string) {
    && a != b && |a| == |b|
    && forall i :: 0 <= i < |a| && a[i] != b[i] ==>
         IsLetter(a[i]) && (a[i] as int - b[i] as int == 32 || b[i] as int - a[i] as int == 32) && IsLetter(b[i])
  }

  lemma EqualFoldIff(a: string, b: string)
    ensures EqualFold(a, b) <==> a == b || CaseVariants(a, b)
  {
    if EqualFold(a, b) && a != b {
      forall i | 0 <= i < |a| && a[i] != b[i]
        ensures IsLetter(a[i]) && (a[i] as int - b[i] as int == 32 || b[i] as int - a[i] as int == 32) && IsLetter(b[i])
      {
        assert FoldChar(a[i]) == FoldChar(b[i]);
      }
    }
  }

  /** With collision-free link hashes, besides the serve-all link exactly those links match
      whose base58 hash differs from its hash in letter case only, which the comparison
      ignores although base58 does not. */
  lemma ServeAllAndCaseVariantsMatch(env: Env, link: GlobalLink)
    requires forall a, b :: env.linkHash(a) == env.linkHash(b) ==> a == b
    ensures IsBehaviorMatching(env, link) <==>
            var serveAll := GlobalLink("serve_all", "did:example:foo", "v0.1.0", "", "", "");
            link == serveAll || CaseVariants(env.linkHash(link), env.linkHash(serveAll))
  {
    EqualFoldIff(env.linkHash(link), env.linkHash(SERVE_ALL_BEHAVIOR));
  }

  function DecodeAll(codec: Codec, cids: seq<string>): Option<seq<Cid>> {
    if cids == [] then Some([])
    else
      var n := |cids| - 1;
      match (DecodeAll(codec, cids[..n]), codec.decode(cids[n]))
      case (Some(init), Some(last)) => Some(init + [last])
      case _ => None
  }

  /** The root of a nonempty list of decodable CIDs; the tree library refuses an empty one. */
  function MerkleRoot(env: Env, cids: seq<string>): Result<string> {
    match DecodeAll(env.codec, cids)
    case None => Err(InvalidArgument)
    case Some(decoded) =>
      if decoded == [] then Err(InvalidArgument) else Ok(env.merkleRoot(decoded))
  }

  lemma {:induction false} DecodeAllPrefix(codec: Codec, cids: seq<string>, n: nat)
    requires n <= |cids| && DecodeAll(codec, cids[..n]).None?
    ensures DecodeAll(codec, cids).None?
    decreases |cids| - n
  {
    if n < |cids| {
      assert cids[..n + 1][..n] == cids[..n];
      DecodeAllPrefix(codec, cids, n + 1);
    } else {
      assert cids[..n] == cids;
    }
  }

  /** `ds` are the CIDs the strings spell, one by one in order. */
  ghost predicate Spells(codec: Codec, cids: seq<string>, ds: seq<Cid>) {
    |ds| == |cids| && forall i :: 0 <= i < |cids| ==> codec.decode(cids[i]) == Some(ds[i])
  }

  lemma {:induction false} DecodeAllIff(codec: Codec, cids: seq<string>, ds: seq<Cid>)
    ensures DecodeAll(codec, cids) == Some(ds) <==> Spells(codec, cids, ds)
    decreases |cids|
  {
    if cids != [] {
      var n := |cids| - 1;
      if |ds| == |cids| {
        DecodeAllIff(codec, cids[..n], ds[..n]);
        assert ds == ds[..n] + [ds[n]];
      }
      if DecodeAll(codec, cids[..n]).Some? {
        var init := DecodeAll(codec, cids[..n]).value;
        DecodeAllIff(codec, cids[..n], init);
        assert DecodeAll(codec, cids) == Some(ds) ==> ds[..|ds| - 1] == init;
      }
    }
  }

  /** Some CID does not decode, or there is none, or the root is that of the CIDs in order. */
  ghost predicate IsRoot(env: Env, cids: seq<string>, r: Result<string>) {
    match r
    case Ok(root) => cids != [] && exists ds :: Spells(env.codec, cids, ds) && root == env.merkleRoot(ds)
    case Err(e) => e == InvalidArgument
                   && (cids == [] || exists i :: 0 <= i < |cids| && env.codec.decode(cids[i]) == None)
  }

  lemma SpelledOnce(codec: Codec, cids: seq<string>, a: seq<Cid>, b: seq<Cid>)
    requires Spells(codec, cids, a) && Spells(codec, cids, b)
    ensures a == b
  {
    assert forall i :: 0 <= i < |cids| ==> Some(a[i]) == codec.decode(cids[i]) == Some(b[i]);
  }

  lemma MerkleRootIs(env: Env, cids: seq<string>)
    ensures IsRoot(env, cids, MerkleRoot(env, cids))
  {
    var decoded := DecodeAll(env.codec, cids);
    if decoded.Some? {
      DecodeAllIff(env.codec, cids, decoded.value);
    } else if forall i :: 0 <= i < |cids| ==> env.codec.decode(cids[i]).Some? {
      var ds := seq(|cids|, i requires 0 <= i < |cids| && env.codec.decode(cids[i]).Some? => env.codec.decode(cids[i]).value);
      DecodeAllIff(env.codec, cids, ds);
    }
  }

  method CalculateMerkleRoot(env: Env, cidStrings: seq<string>) returns (r: Result<string>)
    ensures r == MerkleRoot(env, cidStrings) && IsRoot(env, cidStrings, r)
  {
    MerkleRootIs(env, cidStrings);
    var cids := [];
    for i := 0 to |cidStrings|
      invariant DecodeAll(env.codec, cidStrings[..i]) == Some(cids)
    {
      assert cidStrings[..i + 1][..i] == cidStrings[..i];
      var decoded := env.codec.decode(cidStrings[i]);
      if decoded.None? {
        DecodeAllPrefix(env.codec, cidStrings, i + 1);
        return Err(InvalidArgument);
      }
      cids := cids + [decoded.value];
    }
    assert cidStrings[..|cidStrings|] == cidStrings;
    if cids == [] {
      return Err(InvalidArgument);
    }
    return Ok(env.merkleRoot(cids));
  }

  /** EnsureAdvertisementValid. */
  predicate RootChecked(env: Env, ad: Advertisement) {
    MerkleRoot(env, ad.cids) == Ok(ad.service.variant.name)
  }

  predicate Accepts(env: Env, ad: Advertisement) {
    IsBehaviorMatching(env, ad.service.behavior) && RootChecked(env, ad)
  }

  /** The advertisement's behaviour matches, it lists a CID, all its CIDs decode, and its variant
      is named by their root in order. */
  ghost predicate Sound(env: Env, ad: Advertisement) {
    && IsBehaviorMatching(env, ad.service.behavior)
    && ad.cids != []
    && exists ds :: Spells(env.codec, ad.cids, ds) && ad.service.variant.name == env.merkleRoot(ds)
  }

  /** Exactly the sound advertisements are accepted. */
  lemma AcceptsIff(env: Env, ad: Advertisement)
    ensures Accepts(env, ad) <==> Sound(env, ad)
  {
    MerkleRootIs(env, ad.cids);
    if Sound(env, ad) {
      var ds :| Spells(env.codec, ad.cids, ds) && ad.service.variant.name == env.merkleRoot(ds);
      DecodeAllIff(env.codec, ad.cids, ds);
    }
  }

  /** The index at one instant.  Expired data stays in the maps and is told apart by the
      clock, as in Redis' lazy expiry. */
  datatype Store = Store(
    now: int,
    serviceCids: map<string, Cell<set<string>>>,        // vsvc:cid:<hash>
    details: map<string, Cell<VirtualService>>,         // vsvc:detail:<hash>
    providers: map<string, Cell<seq<Z.Entry>>>,         // vsvc:instance:<hash>
    ads: map<string, Cell<Advertisement>>,              // instance:<did>
    cidServices: map<string, map<string, int>>)         // cid:vsvc:<cid>, field expiries

  function Readable<T>(m: map<string, Cell<T>>, key: string, now: int, absent: T): T {
    if key in m && Alive(now, m[key].expiry) then m[key].value else absent
  }

  function Elements(s: seq<string>): set<string> {
    set x | x in s
  }

  function Fields(m: map<string, map<string, int>>, c: string): map<string, int> {
    if c in m then m[c] else map[]
  }

  /** HSET and HEXPIRE of field `h` under each of `cids`. */
  function ListUnder(m: map<string, map<string, int>>, cids: seq<string>, h: string, until: int)
    : map<string, map<string, int>>
  {
    map c | c in m.Keys + Elements(cids) ::
      if c in cids then Fields(m, c)[h := until] else Fields(m, c)
  }

  /** The effect of one accepted registration; `stamp` is the clock reading taken for the
      score. */
  function Register(env: Env, st: Store, ad: Advertisement, stamp: int): Store {
    var h := env.serviceHash(ad.service);
    var until := st.now + DEFAULT_TTL;
    var held := Readable(st.serviceCids, h, st.now, {});
    var ranked := Readable(st.providers, h, st.now, []);
    Store(
      st.now,
      st.serviceCids[h := Cell(held + Elements(ad.cids), until)],
      st.details[h := Cell(ad.service, until)],
      st.providers[h := Cell(Z.AddGT(ranked, ad.provider.did, stamp), until)],
      st.ads[ad.provider.did := Cell(ad, until)],
      ListUnder(st.cidServices, ad.cids, h, until))
  }

  datatype AdWithScore = AdWithScore(score: int, ad: Advertisement)

  datatype SearchCidResponse = SearchCidResponse(
    services: seq<VirtualService>, instances: seq<Advertisement>)

  /** The live advertisements of a ranked list of providers, in rank order. */
  function LiveAds(st: Store, ranked: seq<Z.Entry>): (r: seq<AdWithScore>)
    ensures |r| <= |ranked|
  {
    if ranked == [] then []
    else
      var n := |ranked| - 1;
      var z := ranked[n];
      LiveAds(st, ranked[..n]) +
      if z.member in st.ads && Alive(st.now, st.ads[z.member].expiry)
      then [AdWithScore(z.score, st.ads[z.member].value)] else []
  }

  /** searchInstances: the live ones among the first count + 1 ranks, at most count of them. */
  function SearchInstances(st: Store, h: string, count: nat): seq<AdWithScore> {
    Take(LiveAds(st, Take(Readable(st.providers, h, st.now, []), count + 1)), count)
  }

  /** The services with details that list the canonical CID `c`. */
  function Found(st: Store, c: string): set<string> {
    set h | h in Fields(st.cidServices, c)
            && Alive(st.now, Fields(st.cidServices, c)[h])
            && h in st.details && Alive(st.now, st.details[h].expiry)
  }

  function Gather(env: Env, st: Store, services: seq<VirtualService>): seq<AdWithScore> {
    if services == [] then []
    else
      var n := |services| - 1;
      Gather(env, st, services[..n])
      + SearchInstances(st, env.serviceHash(services[n]), INSTANCE_COUNT)
  }

  ghost predicate Ascending(s: seq<AdWithScore>) {
    forall i, j :: 0 <= i < j < |s| ==> s[i].score <= s[j].score
  }

  function AdsOf(s: seq<AdWithScore>): seq<Advertisement> {
    seq(|s|, i requires 0 <= i < |s| => s[i].ad)
  }

  ghost predicate NoRepeats(s: seq<string>) {
    forall i, j :: 0 <= i < j < |s| ==> s[i] != s[j]
  }

  /** The services are those found under `c`, each once, in the scan's order `order`. */
  ghost predicate Scans(st: Store, c: string, order: seq<string>, services: seq<VirtualService>) {
    && NoRepeats(order)
    && Elements(order) == Found(st, c)
    && |services| == |order|
    && forall i :: 0 <= i < |order| ==>
         order[i] in st.details && services[i] == st.details[order[i]].value
  }

  /** `ranking` holds all candidates of the services in ascending score. */
  ghost predicate Ranks(env: Env, st: Store, services: seq<VirtualService>, ranking: seq<AdWithScore>) {
    multiset(ranking) == multiset(Gather(env, st, services)) && Ascending(ranking)
  }

  /** What a successful SearchCid may answer: the services found, in some order, and the first
      101 of all their candidates in some arrangement by ascending score. */
  ghost predicate IsAnswer(env: Env, st: Store, c: string, r: SearchCidResponse) {
    && (exists order :: Scans(st, c, order, r.services))
    && exists ranking :: Ranks(env, st, r.services, ranking)
                         && r.instances == AdsOf(Take(ranking, INSTANCE_COUNT + 1))
  }

  lemma LiveAdsNext(st: Store, ranked: seq<Z.Entry>, z: Z.Entry)
    ensures LiveAds(st, ranked + [z]) == LiveAds(st, ranked) +
            if z.member in st.ads && Alive(st.now, st.ads[z.member].expiry)
            then [AdWithScore(z.score, st.ads[z.member].value)] else []
  {
    assert (ranked + [z])[..|ranked|] == ranked;
  }

  lemma LiveAdsAt(st: Store, ranked: seq<Z.Entry>, i: nat)
    requires i < |ranked|
    ensures var z := ranked[i];
            LiveAds(st, ranked[..i + 1]) ==
            if z.member in st.ads && Alive(st.now, st.ads[z.member].expiry)
            then LiveAds(st, ranked[..i]) + [AdWithScore(z.score, st.ads[z.member].value)]
            else LiveAds(st, ranked[..i])
  {
    LiveAdsNext(st, ranked[..i], ranked[i]);
    assert ranked[..i + 1] == ranked[..i] + [ranked[i]];
  }

  lemma {:induction false} LiveAdsPrefix(st: Store, ranked: seq<Z.Entry>, n: nat)
    requires n <= |ranked|
    ensures LiveAds(st, ranked[..n]) <= LiveAds(st, ranked)
    decreases |ranked| - n
  {
    if n < |ranked| {
      assert ranked[..n + 1][..n] == ranked[..n];
      LiveAdsPrefix(st, ranked, n + 1);
    } else {
      assert ranked[..n] == ranked;
    }
  }

  lemma EnoughFound(st: Store, ranked: seq<Z.Entry>, n: nat, count: nat)
    requires n <= |ranked| && |LiveAds(st, ranked[..n])| == count
    ensures Take(LiveAds(st, ranked), count) == LiveAds(st, ranked[..n])
  {
    LiveAdsPrefix(st, ranked, n);
  }

  /** The loop of searchInstances, which skips unreadable advertisements and stops at `count`. */
  method CollectLive(st: Store, zs: seq<Z.Entry>, count: nat) returns (instances: seq<AdWithScore>)
    requires count > 0
    ensures instances == Take(LiveAds(st, zs), count)
  {
    instances := [];
    for i := 0 to |zs|
      invariant instances == LiveAds(st, zs[..i])
      invariant |instances| < count
    {
      LiveAdsAt(st, zs, i);
      var did := zs[i].member;
      if did !in st.ads || !Alive(st.now, st.ads[did].expiry) {
        continue;
      }
      instances := instances + [AdWithScore(zs[i].score, st.ads[did].value)];
      if |instances| == count {
        EnoughFound(st, zs, i + 1, count);
        return;
      }
    }
    assert zs[..|zs|] == zs;
  }

  lemma InsertedElements(s: seq<AdWithScore>, j: nat, x: AdWithScore)
    requires j <= |s|
    ensures multiset(s[..j] + [x] + s[j..]) == multiset(s) + multiset{x}
  {
    assert s == s[..j] + s[j..];
  }

  lemma InsertedOrder(s: seq<AdWithScore>, j: nat, x: AdWithScore)
    requires Ascending(s) && j <= |s|
    requires j > 0 ==> s[j - 1].score <= x.score
    requires j < |s| ==> x.score <= s[j].score
    ensures Ascending(s[..j] + [x] + s[j..])
  {
    var r := s[..j] + [x] + s[j..];
    forall a, b | 0 <= a < b < |r| ensures r[a].score <= r[b].score {
      assert r[a] == if a < j then s[a] else if a == j then x else s[a - 1];
      assert r[b] == if b < j then s[b] else if b == j then x else s[b - 1];
    }
  }

  method InsertByScore(s: seq<AdWithScore>, x: AdWithScore) returns (r: seq<AdWithScore>)
    requires Ascending(s)
    ensures multiset(r) == multiset(s) + multiset{x}
    ensures Ascending(r)
  {
    var j := |s|;
    while j > 0 && s[j - 1].score > x.score
      invariant 0 <= j <= |s|
      invariant forall k :: j <= k < |s| ==> s[k].score > x.score
    {
      j := j - 1;
    }
    InsertedElements(s, j, x);
    InsertedOrder(s, j, x);
    r := s[..j] + [x] + s[j..];
  }

  /** sort.Slice by score: some ascending arrangement of the same elements. */
  method SortByScore(s: seq<AdWithScore>) returns (r: seq<AdWithScore>)
    ensures multiset(r) == multiset(s)
    ensures Ascending(r)
  {
    r := [];
    for i := 0 to |s|
      invariant multiset(r) == multiset(s[..i])
      invariant Ascending(r)
    {
      r := InsertByScore(r, s[i]);
      assert s[..i + 1] == s[..i] + [s[i]];
    }
    assert s[..|s|] == s;
  }

  /** The answer loop of doSearchCid, which stops after index 100. */
  method FirstAds(ranked: seq<AdWithScore>) returns (r: seq<Advertisement>)
    ensures r == AdsOf(Take(ranked, INSTANCE_COUNT + 1))
  {
    r := [];
    for i := 0 to |ranked|
      invariant i <= INSTANCE_COUNT
      invariant r == AdsOf(ranked[..i])
    {
      r := r + [ranked[i].ad];
      if i == INSTANCE_COUNT {
        return;
      }
    }
    assert ranked[..|ranked|] == ranked;
  }

  lemma ListUnderStep(m: map<string, map<string, int>>, cids: seq<string>, c: string,
                      h: string, until: int)
    ensures var before := ListUnder(m, cids, h, until);
            ListUnder(m, cids + [c], h, until) == before[c := Fields(before, c)[h := until]]
  {
    var before := ListUnder(m, cids, h, until);
    var after := ListUnder(m, cids + [c], h, until);
    forall x | x in after ensures after[x] == before[c := Fields(before, c)[h := until]][x] {
      if x == c {
        assert Fields(before, c)[h := until] == Fields(m, c)[h := until];
      }
    }
  }

  /** The fields RegisterVirtualService sets, one for each different CID. */
  method CidMap(cids: seq<string>) returns (r: set<string>)
    ensures r == Elements(cids)
  {
    r := {};
    for i := 0 to |cids|
      invariant r == Elements(cids[..i])
    {
      r := r + {cids[i]};
      assert cids[..i + 1] == cids[..i] + [cids[i]];
    }
    assert cids[..|cids|] == cids;
  }

  /** The field of service `h` under `c` and the details of `h` can both be read. */
  predicate Lists(st: Store, c: string, h: string) {
    && c in st.cidServices && h in st.cidServices[c] && st.now <= st.cidServices[c][h]
    && h in st.details && st.now <= st.details[h].expiry
  }

  /** NotFound is answered exactly when there is no such service, and otherwise the answer names
      exactly those. */
  lemma AnswerNamesServices(env: Env, st: Store, c: string)
    ensures Found(st, c) == {} <==> forall h :: !Lists(st, c, h)
    ensures forall r :: IsAnswer(env, st, c, r) ==>
              forall s :: s in r.services <==> exists h :: Lists(st, c, h) && st.details[h].value == s
  {
    forall h ensures h in Found(st, c) <==> Lists(st, c, h) {
    }
    forall r | IsAnswer(env, st, c, r)
      ensures forall s :: s in r.services <==> exists h :: Lists(st, c, h) && st.details[h].value == s
    {
      var order :| Scans(st, c, order, r.services);
      ScannedServices(st, c, order, r.services);
    }
  }

  lemma ScannedServices(st: Store, c: string, order: seq<string>, services: seq<VirtualService>)
    requires Scans(st, c, order, services)
    ensures forall s :: s in services <==> exists h :: Lists(st, c, h) && st.details[h].value == s
  {
    forall s ensures s in services <==> exists h :: Lists(st, c, h) && st.details[h].value == s {
      if s in services {
        var i :| 0 <= i < |services| && services[i] == s;
        assert order[i] in Elements(order);
        assert Lists(st, c, order[i]);
      }
      if h :| Lists(st, c, h) && st.details[h].value == s {
        assert h in Found(st, c) && h in Elements(order);
        var i :| 0 <= i < |order| && order[i] == h;
        assert services[i] == s;
      }
    }
  }

  /** The Redis keys of the index, updated command by command. */
  class Registry {
    var now: int
    var serviceCids: map<string, Cell<set<string>>>
    var details: map<string, Cell<VirtualService>>
    var providers: map<string, Cell<seq<Z.Entry>>>
    var ads: map<string, Cell<Advertisement>>
    var cidServices: map<string, map<string, int>>

    function State(): Store
      reads this
    {
      Store(now, serviceCids, details, providers, ads, cidServices)
    }

    constructor (start: int)
      ensures State() == Store(start, map[], map[], map[], map[], map[])
    {
      now := start;
      serviceCids, details, providers, ads, cidServices := map[], map[], map[], map[], map[];
    }

    method RegisterVirtualService(env: Env, ad: Advertisement, stamp: int)
      modifies this
      ensures State() == Register(env, old(State()), ad, stamp).(cidServices := old(cidServices))
    {
      ghost var after := Register(env, State(), ad, stamp);
      var h := env.serviceHash(ad.service);
      var cidMap := CidMap(ad.cids);
      serviceCids := serviceCids[h := Cell(Readable(serviceCids, h, now, {}) + cidMap, now + DEFAULT_TTL)];
      assert serviceCids == after.serviceCids;
      details := details[h := Cell(ad.service, now + DEFAULT_TTL)];
      var ranked := Z.AddGT(Readable(providers, h, now, []), ad.provider.did, stamp);
      providers := providers[h := Cell(ranked, now + DEFAULT_TTL)];
      assert providers == after.providers;
      ads := ads[ad.provider.did := Cell(ad, now + DEFAULT_TTL)];
    }

    method RegisterCid(env: Env, ad: Advertisement)
      modifies this`cidServices
      ensures cidServices == ListUnder(old(cidServices), ad.cids, env.serviceHash(ad.service), now + DEFAULT_TTL)
    {
      var h, until := env.serviceHash(ad.service), now + DEFAULT_TTL;
      ghost var before := cidServices;
      for i := 0 to |ad.cids|
        invariant cidServices == ListUnder(before, ad.cids[..i], h, until)
      {
        var c := ad.cids[i];
        ListUnderStep(before, ad.cids[..i], c, h, until);
        cidServices := cidServices[c := Fields(cidServices, c)[h := until]];
        assert ad.cids[..i + 1] == ad.cids[..i] + [c];
      }
      assert ad.cids[..|ad.cids|] == ad.cids;
    }

    /** RegisterInstance: refused with InvalidArgument and no effect unless the behaviour
        matches and the root check passes. */
    method RegisterInstance(env: Env, ad: Advertisement, stamp: int) returns (r: Result<()>)
      modifies this
      ensures r == if Sound(env, ad) then Ok(()) else Err(InvalidArgument)
      ensures State() == if Accepts(env, ad) then Register(env, old(State()), ad, stamp) else old(State())
    {
      AcceptsIff(env, ad);
      if !IsBehaviorMatching(env, ad.service.behavior) {
        return Err(InvalidArgument);
      }
      var expectedRoot := CalculateMerkleRoot(env, ad.cids);
      if expectedRoot.Err? || expectedRoot.value != ad.service.variant.name {
        return Err(InvalidArgument);
      }
      RegisterVirtualService(env, ad, stamp);
      RegisterCid(env, ad);
      return Ok(());
    }

    method SearchInstancesOf(env: Env, service: VirtualService, count: nat)
      returns (instances: seq<AdWithScore>)
      requires count > 0
      ensures instances == SearchInstances(State(), env.serviceHash(service), count)
    {
      var zs := Take(Readable(providers, env.serviceHash(service), now, []), count + 1);
      instances := CollectLive(State(), zs, count);
    }

    /** The HSCAN loop: the services under `cid:vsvc:c` whose details can still be read. */
    method ScanServices(c: string) returns (services: seq<VirtualService>)
      ensures exists order :: Scans(State(), c, order, services)
    {
      services := [];
      ghost var order := [];
      var fields := Fields(cidServices, c);
      var unseen := set h | h in fields && Alive(now, fields[h]);
      ghost var live := unseen;
      while unseen != {}
        invariant unseen <= live
        invariant NoRepeats(order)
        invariant forall h :: h in order <==> h in Found(State(), c) && h !in unseen
        invariant |services| == |order|
        invariant forall i :: 0 <= i < |order| ==>
                    order[i] in details && services[i] == details[order[i]].value
      {
        var h :| h in unseen;
        if h in details && Alive(now, details[h].expiry) {
          services := services + [details[h].value];
          order := order + [h];
        }
        unseen := unseen - {h};
      }
      assert Scans(State(), c, order, services);
    }

    method GatherInstances(env: Env, services: seq<VirtualService>) returns (r: seq<AdWithScore>)
      ensures r == Gather(env, State(), services)
    {
      r := [];
      for i := 0 to |services|
        invariant r == Gather(env, State(), services[..i])
      {
        assert services[..i + 1][..i] == services[..i];
        var batch := SearchInstancesOf(env, services[i], INSTANCE_COUNT);
        r := r + batch;
      }
      assert services[..|services|] == services;
    }

    /** SearchCid with its status codes: InvalidArgument for a CID the normaliser refuses,
        NotFound when no live service with details lists it. */
    method SearchCid(env: Env, cid: string) returns (r: Result<SearchCidResponse>)
      ensures var n := NormalizeCidToV1(env.codec, cid);
              if n.Err? then r == Err(InvalidArgument)
              else if Found(State(), n.value) == {} then r == Err(NotFound)
              else r.Ok? && IsAnswer(env, State(), n.value, r.value)
    {
      var normal := NormalizeCidToV1(env.codec, cid);
      if normal.Err? {
        return Err(normal.status);
      }
      var services := ScanServices(normal.value);
      ghost var order :| Scans(State(), normal.value, order, services);
      if |services| == 0 {
        assert Elements(order) == {};
        return Err(NotFound);
      }
      assert order[0] in Elements(order);
      var instances := GatherInstances(env, services);
      var sorted := SortByScore(instances);
      var ret := FirstAds(sorted);
      assert Ranks(env, State(), services, sorted);
      return Ok(SearchCidResponse(services, ret));
    }
  }
}

/** Registrations and searches broken up into their Redis commands and interleaved in any way,
    with keys expiring at any moment.  Agreement with a log is then too much to ask, but the
    provenance of search results survives. */
module IndexInterleaving {
  import opened ProviderIndex
  import opened IndexProvenance

  /** The writes of one registration that searches read. */
  datatype Command =
    | List(cid: string, hash: string)
    | Describe(hash: string, service: VirtualService)
    | Rank(hash: string, did: string)
    | Publish(did: string, ad: Advertisement)

  predicate Issues(env: Env, ad: Advertisement, c: Command) {
    match c
    case List(cid, h) => cid in ad.cids && h == env.serviceHash(ad.service)
    case Describe(h, service) => h == env.serviceHash(ad.service) && service == ad.service
    case Rank(h, did) => h == env.serviceHash(ad.service) && did == ad.provider.did
    case Publish(did, a) => did == ad.provider.did && a == ad
  }

  /** What can be read at one instant, and the advertisements accepted so far. */
  datatype Soup = Soup(
    listings: set<(string, string)>,
    details: map<string, VirtualService>,
    members: set<(string, string)>,
    ads: map<string, Advertisement>,
    accepted: set<Advertisement>)

  datatype Event =
    | Accept(ad: Advertisement)                  // RegisterInstance has checked it
    | Execute(ad: Advertisement, command: Command)
    | Vanish(listings: set<(string, string)>, details: set<string>, members: set<(string, string)>, ads: set<string>)

  function Apply(s: Soup, c: Command): Soup {
    match c
    case List(cid, h) => s.(listings := s.listings + {(cid, h)})
    case Describe(h, service) => s.(details := s.details[h := service])
    case Rank(h, did) => s.(members := s.members + {(h, did)})
    case Publish(did, ad) => s.(ads := s.ads[did := ad])
  }

  function Step(env: Env, s: Soup, e: Event): Soup {
    match e
    case Accept(ad) => if Accepts(env, ad) then s.(accepted := s.accepted + {ad}) else s
    case Execute(ad, c) => if ad in s.accepted && Issues(env, ad, c) then Apply(s, c) else s
    case Vanish(l, d, m, a) =>
      s.(listings := s.listings - l, details := s.details - d, members := s.members - m, ads := s.ads - a)
  }

  function Run(env: Env, events: seq<Event>): Soup {
    if events == [] then Soup({}, map[], {}, map[], {})
    else Step(env, Run(env, events[..|events| - 1]), events[|events| - 1])
  }

  ghost predicate ListedBy(env: Env, ad: Advertisement, c: string, h: string) {
    c in ad.cids && env.serviceHash(ad.service) == h
  }

  ghost predicate RankedBy(env: Env, ad: Advertisement, h: string, did: string) {
    env.serviceHash(ad.service) == h && ad.provider.did == did
  }

  /** Every readable datum was written on behalf of an accepted advertisement. */
  ghost predicate Backed(env: Env, s: Soup) {
    && (forall ad :: ad in s.accepted ==> Accepts(env, ad))
    && (forall c, h :: (c, h) in s.listings ==> exists ad :: ad in s.accepted && ListedBy(env, ad, c, h))
    && (forall h :: h in s.details ==> env.serviceHash(s.details[h]) == h)
    && (forall h, did :: (h, did) in s.members ==> exists ad :: ad in s.accepted && RankedBy(env, ad, h, did))
    && (forall did :: did in s.ads ==> s.ads[did] in s.accepted && s.ads[did].provider.did == did)
  }

  lemma ApplyBacked(env: Env, s: Soup, ad: Advertisement, c: Command)
    requires Backed(env, s) && ad in s.accepted && Issues(env, ad, c)
    ensures Backed(env, Apply(s, c))
  {
  }

  lemma AcceptBacked(env: Env, s: Soup, ad: Advertisement)
    requires Backed(env, s) && Accepts(env, ad)
    ensures Backed(env, s.(accepted := s.accepted + {ad}))
  {
  }

  lemma StepBacked(env: Env, s: Soup, e: Event)
    requires Backed(env, s)
    ensures Backed(env, Step(env, s, e))
    ensures s.accepted <= Step(env, s, e).accepted
  {
    match e {
      case Accept(ad) =>
        if Accepts(env, ad) {
          AcceptBacked(env, s, ad);
        }
      case Execute(ad, c) =>
        if ad in s.accepted && Issues(env, ad, c) {
          ApplyBacked(env, s, ad, c);
        }
      case Vanish(_, _, _, _) =>
    }
  }

  lemma {:induction false} RunBacked(env: Env, events: seq<Event>)
    ensures Backed(env, Run(env, events))
  {
    if events != [] {
      RunBacked(env, events[..|events| - 1]);
      StepBacked(env, Run(env, events[..|events| - 1]), events[|events| - 1]);
    }
  }

  lemma {:induction false} AcceptedGrows(env: Env, events: seq<Event>, i: nat, j: nat)
    requires i <= j <= |events|
    ensures Run(env, events[..i]).accepted <= Run(env, events[..j]).accepted
    decreases j - i
  {
    if i < j {
      AcceptedGrows(env, events, i, j - 1);
      assert events[..j][..j - 1] == events[..j - 1];
      RunBacked(env, events[..j - 1]);
      StepBacked(env, Run(env, events[..j - 1]), events[j - 1]);
    }
  }

  /** One candidate of SearchCid as its four reads see it, at four moments of the run: the
      service under the CID, its details, a provider under the hash of those details, and that
      provider's advertisement. */
  ghost predicate Reads(env: Env, events: seq<Event>, scan: nat, detail: nat, rank: nat, get: nat,
                        c: string, h: string, did: string, ad: Advertisement)
  {
    && scan <= detail <= rank <= get <= |events|
    && (c, h) in Run(env, events[..scan]).listings
    && h in Run(env, events[..detail]).details
    && (env.serviceHash(Run(env, events[..detail]).details[h]), did) in Run(env, events[..rank]).members
    && did in Run(env, events[..get]).ads
    && Run(env, events[..get]).ads[did] == ad
  }

  /** The provider only ever had one service accepted. */
  ghost predicate OneService(accepted: set<Advertisement>, did: string) {
    forall a, b :: a in accepted && b in accepted && a.provider.did == b.provider.did == did ==>
      a.service == b.service
  }

  ghost predicate Backs(env: Env, accepted: set<Advertisement>, a: Advertisement, did: string, c: string) {
    a in accepted && a.provider.did == did && ListsCid(env, a, c) && RootChecked(env, a)
  }

  lemma BackingOf(env: Env, accepted: set<Advertisement>, lister: Advertisement, ranked: Advertisement,
                  ad: Advertisement, c: string, h: string, did: string)
    requires CollisionFree(env)
    requires forall a :: a in accepted ==> Accepts(env, a)
    requires lister in accepted && ranked in accepted && ad in accepted
    requires ListedBy(env, lister, c, h) && RankedBy(env, ranked, h, did) && ad.provider.did == did
    ensures Backs(env, accepted, ranked, did, c)
    ensures OneService(accepted, did) ==> ListsCid(env, ad, c)
  {
    HoldsSoLists(env, lister, c);
    SameServiceListsCid(env, lister, ranked, c);
    if OneService(accepted, did) {
      SameServiceListsCid(env, ranked, ad, c);
    }
  }

  /** Whatever registrations run meanwhile and whatever expires between the reads, an
      advertisement returned for `c` comes from a provider with an accepted, root-checked
      advertisement listing the CID `c` spells; and it lists that CID itself if the provider only
      ever had one service accepted. */
  lemma InterleavedProvenance(env: Env, events: seq<Event>, scan: nat, detail: nat, rank: nat, get: nat,
                              c: string, h: string, did: string, ad: Advertisement)
    requires CollisionFree(env)
    requires Reads(env, events, scan, detail, rank, get, c, h, did, ad)
    ensures ad.provider.did == did
    ensures exists a :: Backs(env, Run(env, events).accepted, a, did, c)
    ensures OneService(Run(env, events).accepted, did) ==> ListsCid(env, ad, c)
  {
    assert events[..|events|] == events;
    var lister := ListerOf(env, events, scan, c, h);
    assert env.serviceHash(Run(env, events[..detail]).details[h]) == h by {
      RunBacked(env, events[..detail]);
    }
    var ranked := RankedOf(env, events, rank, h, did);
    assert ad in Run(env, events).accepted && ad.provider.did == did by {
      RunBacked(env, events[..get]);
      AcceptedGrows(env, events, get, |events|);
    }
    RunBacked(env, events);
    BackingOf(env, Run(env, events).accepted, lister, ranked, ad, c, h, did);
  }

  lemma ListerOf(env: Env, events: seq<Event>, i: nat, c: string, h: string) returns (ad: Advertisement)
    requires i <= |events| && (c, h) in Run(env, events[..i]).listings
    ensures ad in Run(env, events).accepted && ListedBy(env, ad, c, h)
  {
    RunBacked(env, events[..i]);
    AcceptedGrows(env, events, i, |events|);
    assert events[..|events|] == events;
    ad :| ad in Run(env, events[..i]).accepted && ListedBy(env, ad, c, h);
  }

  lemma RankedOf(env: Env, events: seq<Event>, i: nat, h: string, did: string) returns (ad: Advertisement)
    requires i <= |events| && (h, did) in Run(env, events[..i]).members
    ensures ad in Run(env, events).accepted && RankedBy(env, ad, h, did)
  {
    RunBacked(env, events[..i]);
    AcceptedGrows(env, events, i, |events|);
    assert events[..|events|] == events;
    ad :| ad in Run(env, events[..i]).accepted && RankedBy(env, ad, h, did);
  }
}

/** One registration of internal/api/virtual_service.go as the commands it sends, each at its own
    time, with no other registration of the service in between.  HSET and ZADD leave the expiry
    of a key as it is and the EXPIRE that follows does nothing to a key that has expired by then. */
module IndexCommands {
  import opened Common
  import opened ProviderIndex
  import opened IndexLog
  import Z = SortedSets

  /** When the commands run: HSET and EXPIRE of the CIDs, SET of the details, ZADD and EXPIRE of
      the providers, SET of the advertisement, and the listings under the CIDs. */
  datatype Times = Times(
    hset: int, expireCids: int, detail: int, zadd: int, expireProviders: int, publish: int, list: int)

  predicate InOrder(start: int, t: Times) {
    start <= t.hset <= t.expireCids <= t.detail <= t.zadd <= t.expireProviders <= t.publish <= t.list
  }

  predicate Held<T>(m: map<string, Cell<T>>, key: string, time: int) {
    key in m && Alive(time, m[key].expiry)
  }

  /** A write to a key at one time and its EXPIRE at another.  A key the write creates has no
      expiry until then. */
  function WriteThenExpire<T>(m: map<string, Cell<T>>, key: string, value: T, write: int, expire: int)
    : map<string, Cell<T>>
  {
    if Held(m, key, write) && !Held(m, key, expire) then m[key := Cell(value, m[key].expiry)]
    else m[key := Cell(value, expire + DEFAULT_TTL)]
  }

  /** The EXPIRE comes before the key expires, if the write found one that would. */
  predicate InTime<T>(m: map<string, Cell<T>>, key: string, write: int, expire: int) {
    Held(m, key, write) ==> Held(m, key, expire)
  }

  /** What the commands leave. */
  function SplitRegister(env: Env, st: Store, ad: Advertisement, stamp: int, t: Times): Store {
    var h, did := env.serviceHash(ad.service), ad.provider.did;
    Store(
      t.list,
      WriteThenExpire(st.serviceCids, h, Readable(st.serviceCids, h, t.hset, {}) + Elements(ad.cids),
                      t.hset, t.expireCids),
      st.details[h := Cell(ad.service, t.detail + DEFAULT_TTL)],
      WriteThenExpire(st.providers, h, Z.AddGT(Readable(st.providers, h, t.zadd, []), did, stamp),
                      t.zadd, t.expireProviders),
      st.ads[did := Cell(ad, t.publish + DEFAULT_TTL)],
      ListUnder(st.cidServices, ad.cids, h, t.list + DEFAULT_TTL))
  }

  /** What a registration should leave: each structure as the single step leaves it, at the times
      of its own commands. */
  function Intended(env: Env, st: Store, ad: Advertisement, stamp: int, t: Times): Store {
    var h, did := env.serviceHash(ad.service), ad.provider.did;
    Store(
      t.list,
      st.serviceCids[h := Cell(Readable(st.serviceCids, h, t.hset, {}) + Elements(ad.cids), t.expireCids + DEFAULT_TTL)],
      st.details[h := Cell(ad.service, t.detail + DEFAULT_TTL)],
      st.providers[h := Cell(Z.AddGT(Readable(st.providers, h, t.zadd, []), did, stamp),
                             t.expireProviders + DEFAULT_TTL)],
      st.ads[did := Cell(ad, t.publish + DEFAULT_TTL)],
      ListUnder(st.cidServices, ad.cids, h, t.list + DEFAULT_TTL))
  }

  /** With no time in between that is the single step of the other modules. */
  lemma IntendedAtOnce(env: Env, st: Store, ad: Advertisement, stamp: int, t: Times)
    requires InOrder(st.now, t) && t.list == st.now
    ensures Intended(env, st, ad, stamp, t) == Register(env, st, ad, stamp)
  {
  }

  ghost predicate BothInTime(st: Store, h: string, t: Times) {
    && InTime(st.serviceCids, h, t.hset, t.expireCids)
    && InTime(st.providers, h, t.zadd, t.expireProviders)
  }

  lemma WriteThenExpireIff<T>(m: map<string, Cell<T>>, key: string, value: T, write: int, expire: int)
    ensures WriteThenExpire(m, key, value, write, expire) == m[key := Cell(value, expire + DEFAULT_TTL)] <==>
            InTime(m, key, write, expire)
  {
    if !InTime(m, key, write, expire) {
      assert WriteThenExpire(m, key, value, write, expire)[key].expiry < expire;
    }
  }

  /** A registration leaves what it should exactly when neither the CIDs nor the providers of its
      service expire between a write to them and its EXPIRE. */
  lemma SplitRegisterIff(env: Env, st: Store, ad: Advertisement, stamp: int, t: Times)
    requires InOrder(st.now, t)
    ensures SplitRegister(env, st, ad, stamp, t) == Intended(env, st, ad, stamp, t) <==>
            BothInTime(st, env.serviceHash(ad.service), t)
  {
    var h := env.serviceHash(ad.service);
    WriteThenExpireIff(st.serviceCids, h, Readable(st.serviceCids, h, t.hset, {}) + Elements(ad.cids),
                       t.hset, t.expireCids);
    WriteThenExpireIff(st.providers, h, Z.AddGT(Readable(st.providers, h, t.zadd, []), ad.provider.did, stamp),
                       t.zadd, t.expireProviders);
  }

  /** All that is lost then: the key is gone from the time of its EXPIRE on. */
  lemma LateExpireLoses(env: Env, st: Store, ad: Advertisement, stamp: int, t: Times, time: int)
    requires InOrder(st.now, t) && time >= t.expireProviders
    requires !InTime(st.providers, env.serviceHash(ad.service), t.zadd, t.expireProviders)
    ensures Readable(SplitRegister(env, st, ad, stamp, t).providers, env.serviceHash(ad.service), time, []) == []
  {
  }

  /** Everything up to the ZADD at `start`, and the rest a millisecond later. */
  function LateExpire(start: int): Times {
    Times(start, start, start, start, start + 1, start + 1, start + 1)
  }

  /** Whatever is advertised: a provider that registers DEFAULT_TTL after the last registration
      of its service, and whose EXPIRE comes a millisecond after its ZADD, is not found by a
      search of that service when its registration is over, although its advertisement is there. */
  lemma LateExpireRun(env: Env, ad: Advertisement, other: Advertisement, stamp: int)
    requires Accepts(env, ad) && Accepts(env, other) && env.serviceHash(ad.service) == env.serviceHash(other.service)
    ensures var st := Run(env, 0, [Submit(ad, 0), Advance(DEFAULT_TTL)]).store;
            var after := SplitRegister(env, st, other, stamp, LateExpire(DEFAULT_TTL));
            && st.now == DEFAULT_TTL
            && SearchInstances(after, env.serviceHash(other.service), INSTANCE_COUNT) == []
            && other.provider.did in after.ads && Alive(after.now, after.ads[other.provider.did].expiry)
  {
    RunMore(env, 0, [], Submit(ad, 0));
    RunMore(env, 0, [Submit(ad, 0)], Advance(DEFAULT_TTL));
    assert [] + [Submit(ad, 0)] == [Submit(ad, 0)];
    assert [Submit(ad, 0)] + [Advance(DEFAULT_TTL)] == [Submit(ad, 0), Advance(DEFAULT_TTL)];
    var first := Run(env, 0, []).store;
    LateExpireAfter(env, Register(env, first, ad, 0), other, stamp);
  }

  lemma LateExpireAfter(env: Env, st: Store, other: Advertisement, stamp: int)
    requires var h := env.serviceHash(other.service); h in st.providers && st.providers[h].expiry == DEFAULT_TTL
    ensures var after := SplitRegister(env, st.(now := DEFAULT_TTL), other, stamp, LateExpire(DEFAULT_TTL));
            SearchInstances(after, env.serviceHash(other.service), INSTANCE_COUNT) == []
            && other.provider.did in after.ads && Alive(after.now, after.ads[other.provider.did].expiry)
  {
    LateExpireLoses(env, st.(now := DEFAULT_TTL), other, stamp, LateExpire(DEFAULT_TTL), DEFAULT_TTL + 1);
  }
}

/** Content-addressed values of internal/api/handler.go: the key of a value is the CID of its
    bytes, whichever spelling of that CID a reader uses. */
module Values {
  import opened Common
  import opened Cids
  import opened Prolonging

  datatype CodecChoice = Unspecified | Raw | DagPb

  /** The hashes, left opaque: SHA-256 of raw bytes, and the CID of a dag-pb node if the bytes
      decode as one.  `usage` is Redis' MEMORY USAGE. */
  datatype Env = Env(
    codec: Codec,
    sha256: Bytes -> string,
    dagPbNode: Bytes -> Option<Cid>,
    usage: Bytes -> nat)

  function CalculateCid(env: Env, choice: CodecChoice, value: Bytes): Result<string> {
    match choice
    case DagPb =>
      (match env.dagPbNode(value)
       case None => Err(InvalidArgument)
       case Some(c) =>
         if c.codec != DAG_PB then Err(InvalidArgument) else Ok(env.codec.encode(Cid(1, DAG_PB, c.hash))))
    case Raw => Ok(env.codec.encode(Cid(1, RAW, env.sha256(value))))
    case Unspecified => Err(InvalidArgument)
  }

  predicate SameNode(env: Env, a: Bytes, b: Bytes) {
    && env.dagPbNode(a).Some? && env.dagPbNode(b).Some?
    && env.dagPbNode(a).value.hash == env.dagPbNode(b).value.hash
  }

  /** Different bytes never share a hash. */
  ghost predicate CollisionFree(env: Env) {
    && (forall a, b :: env.sha256(a) == env.sha256(b) ==> a == b)
    && (forall a, b :: SameNode(env, a, b) ==> a == b)
  }

  datatype Store = Store(now: int, values: map<string, Cell<Bytes>>)

  const PREFIX := "values/"

  function Remaining(st: Store, key: string): Option<int> {
    if key in st.values then Some(st.values[key].expiry) else None
  }

  predicate Readable(st: Store, key: string) {
    Live(Remaining(st, key), st.now)
  }

  /** SET with an expiry of whole milliseconds. */
  function Create(env: Env, st: Store, choice: CodecChoice, value: Bytes, ttl: int): (Store, Result<string>) {
    match CalculateCid(env, choice, value)
    case Err(e) => (st, Err(e))
    case Ok(cid) =>
      (st.(values := st.values[PREFIX + cid := Cell(value, st.now + ttl / 1_000_000)]), Ok(PREFIX + cid))
  }

  /** The store with a new expiry for a key it holds, or without the key. */
  function WithExpiry(st: Store, key: string, expiry: Option<int>): Store {
    match expiry
    case None => st.(values := st.values - {key})
    case Some(t) => if key in st.values then st.(values := st.values[key := st.values[key].(expiry := t)]) else st
  }

  /** The effect of any EXPIRE a prolong sends. */
  function SetExpiry(st: Store, key: string, duration: int): Store {
    WithExpiry(st, key, Expire(Remaining(st, key), st.now, duration))
  }

  function Get(env: Env, st: Store, name: string): Result<Bytes> {
    if !(PREFIX <= name) then Err(InvalidArgument)
    else
      match NormalizeCidToV1(env.codec, name[|PREFIX|..])
      case Err(e) => Err(e)
      case Ok(cid) =>
        var key := PREFIX + cid;
        if Readable(st, key) then Ok(st.values[key].value) else Err(NotFound)
  }

  datatype Event =
    | Creates(choice: CodecChoice, value: Bytes, ttl: int)
    | Expires(key: string, duration: int)     // the write of a prolong, whatever it read before
    | Passes(millis: nat)

  function Step(env: Env, st: Store, e: Event): Store {
    match e
    case Creates(choice, value, ttl) => Create(env, st, choice, value, ttl).0
    case Expires(key, duration) => SetExpiry(st, key, duration)
    case Passes(millis) => st.(now := st.now + millis)
  }

  function Run(env: Env, st: Store, events: seq<Event>): Store {
    if events == [] then st
    else Step(env, Run(env, st, events[..|events| - 1]), events[|events| - 1])
  }

  /** The bytes under a key are content of that CID. */
  ghost predicate Addressed(env: Env, key: string, value: Bytes) {
    exists choice :: CalculateCid(env, choice, value).Ok? && key == PREFIX + CalculateCid(env, choice, value).value
  }

  ghost predicate ContentAddressed(env: Env, st: Store) {
    forall key :: key in st.values ==> Addressed(env, key, st.values[key].value)
  }

  /** In every reachable state the bytes under values/<cid> hash to that CID. */
  lemma {:induction false} RunContentAddressed(env: Env, st: Store, events: seq<Event>)
    requires ContentAddressed(env, st)
    ensures ContentAddressed(env, Run(env, st, events))
  {
    if events != [] {
      var before := Run(env, st, events[..|events| - 1]);
      RunContentAddressed(env, st, events[..|events| - 1]);
      var last := events[|events| - 1];
      var after := Step(env, before, last);
      forall key | key in after.values ensures Addressed(env, key, after.values[key].value) {
        if key in before.values && after.values[key].value == before.values[key].value {
          assert Addressed(env, key, before.values[key].value);
        } else {
          assert Addressed(env, key, last.value);
        }
      }
    }
  }

  /** A key determines its content: raw and dag-pb CIDs differ in their codec, and within one
      codec equal hashes mean equal bytes. */
  lemma KeyDeterminesContent(env: Env, key: string, a: Bytes, b: Bytes)
    requires Lawful(env.codec) && CollisionFree(env)
    requires Addressed(env, key, a) && Addressed(env, key, b)
    ensures a == b
  {
    var x :| CalculateCid(env, x, a).Ok? && key == PREFIX + CalculateCid(env, x, a).value;
    var y :| CalculateCid(env, y, b).Ok? && key == PREFIX + CalculateCid(env, y, b).value;
    var s, t := CalculateCid(env, x, a).value, CalculateCid(env, y, b).value;
    assert s == key[|PREFIX|..] == t;
    var hash := if x.Raw? then env.sha256(a) else env.dagPbNode(a).value.hash;
    var hash' := if y.Raw? then env.sha256(b) else env.dagPbNode(b).value.hash;
    assert env.codec.decode(s) == Some(Cid(1, if x.Raw? then RAW else DAG_PB, hash));
    assert env.codec.decode(t) == Some(Cid(1, if y.Raw? then RAW else DAG_PB, hash'));
    assert x.DagPb? && y.DagPb? ==> SameNode(env, a, b);
  }

  /** Whatever else is created, prolonged or allowed to expire after a value was created, a
      reader using any accepted spelling of its CID, version 0 or 1, gets exactly the created
      bytes for as long as the key is there, and NotFound afterwards. */
  lemma GetReturnsCreated(env: Env, st: Store, choice: CodecChoice, value: Bytes, ttl: int,
                          events: seq<Event>, spelling: string)
    requires Lawful(env.codec) && CollisionFree(env) && ContentAddressed(env, st)
    requires CalculateCid(env, choice, value).Ok?
    requires NormalizeCidToV1(env.codec, spelling) == CalculateCid(env, choice, value)
    ensures var after := Run(env, Create(env, st, choice, value, ttl).0, events);
            var key := PREFIX + CalculateCid(env, choice, value).value;
            Get(env, after, PREFIX + spelling) == if Readable(after, key) then Ok(value) else Err(NotFound)
  {
    var created := Create(env, st, choice, value, ttl).0;
    RunContentAddressed(env, st, [Creates(choice, value, ttl)]) by {
      assert [Creates(choice, value, ttl)][..0] == [];
    }
    assert Run(env, st, [Creates(choice, value, ttl)]) == created by {
      assert [Creates(choice, value, ttl)][..0] == [];
    }
    RunContentAddressed(env, created, events);
    var after := Run(env, created, events);
    var key := PREFIX + CalculateCid(env, choice, value).value;
    assert (PREFIX + spelling)[|PREFIX|..] == spelling;
    if key in after.values {
      assert Addressed(env, key, value);
      KeyDeterminesContent(env, key, value, after.values[key].value);
    }
  }

  /** The CID a create answers with names the codec chosen and the hash of the bytes, and
      reads back under its own spelling. */
  lemma CreatedCidNamesContent(env: Env, choice: CodecChoice, value: Bytes)
    requires Lawful(env.codec) && CalculateCid(env, choice, value).Ok?
    ensures var cid := CalculateCid(env, choice, value).value;
            && Canonical(env.codec, cid)
            && (choice.Raw? ==> env.codec.decode(cid) == Some(Cid(1, 0x55, env.sha256(value))))
            && (choice.DagPb? ==> env.dagPbNode(value).Some? && env.dagPbNode(value).value.codec == DAG_PB
                                  && env.codec.decode(cid) == Some(Cid(1, 0x70, env.dagPbNode(value).value.hash)))
  {
    var hash := if choice.Raw? then env.sha256(value) else env.dagPbNode(value).value.hash;
    var codec := if choice.Raw? then RAW else DAG_PB;
    assert env.codec.decode(env.codec.encode(Cid(1, codec, hash))) == Some(Cid(1, codec, hash));
  }

  /** A create succeeds for raw bytes, and for bytes that decode as a dag-pb node. */
  lemma CreateSucceedsIff(env: Env, st: Store, choice: CodecChoice, value: Bytes, ttl: int)
    ensures var (after, r) := Create(env, st, choice, value, ttl);
            && (r.Ok? <==> choice.Raw? || (choice.DagPb? && env.dagPbNode(value).Some?
                                           && env.dagPbNode(value).value.codec == 0x70))
            && (r.Err? ==> r.status == InvalidArgument && after == st)
            && (r.Ok? ==> "values/" <= r.value && r.value in after.values
                          && after.values == st.values[r.value := Cell(value, st.now + ttl / 1_000_000)])
  {
  }

  /** The answers to a get: the bytes under the key of the CID named, whichever spelling is used,
      NotFound if there are none, and InvalidArgument for any other name. */
  lemma GetAnswers(env: Env, st: Store, name: string)
    requires Lawful(env.codec)
    ensures var cid := if |name| >= 7 then env.codec.decode(name[7..]) else None;
            if "values/" <= name && cid.Some? && (cid.value.codec == 0x55 || cid.value.codec == 0x70) then
              var key := "values/" + env.codec.encode(Cid(1, cid.value.codec, cid.value.hash));
              Get(env, st, name) ==
              if key in st.values && st.now <= st.values[key].expiry then Ok(st.values[key].value) else Err(NotFound)
            else Get(env, st, name) == Err(InvalidArgument)
  {
    if "values/" <= name {
      AcceptedIffRawOrDagPb(env.codec, name[7..]);
    }
  }

  /** The values of Redis. */
  class ValueStore {
    var now: int
    var values: map<string, Cell<Bytes>>

    function State(): Store
      reads this
    {
      Store(now, values)
    }

    constructor (start: int)
      ensures State() == Store(start, map[])
    {
      now, values := start, map[];
    }

    method CreateValue(env: Env, choice: CodecChoice, value: Bytes, ttl: int) returns (r: Result<string>)
      requires ValidTtl(ttl)
      modifies this
      ensures (State(), r) == Create(env, old(State()), choice, value, ttl)
    {
      var cid := CalculateCid(env, choice, value);
      if cid.Err? {
        return Err(cid.status);
      }
      var name := PREFIX + cid.value;
      values := values[name := Cell(value, now + ttl / 1_000_000)];
      return Ok(name);
    }

    method GetValue(env: Env, name: string) returns (r: Result<Bytes>)
      ensures r == Get(env, State(), name)
    {
      if !(PREFIX <= name) {
        return Err(InvalidArgument);
      }
      var cidV1 := NormalizeCidToV1(env.codec, name[|PREFIX|..]);
      if cidV1.Err? {
        return Err(InvalidArgument);
      }
      var key := PREFIX + cidV1.value;
      if !Readable(State(), key) {
        return Err(NotFound);
      }
      return Ok(values[key].value);
    }

    /** ProlongValue: MEMORY USAGE, `first` milliseconds later TTL, and `second` milliseconds
        after that EXPIRE, with no other command on the key in between.  It answers the new
        lifetime.  The value is left alone unless it is there and its memory is within the size
        paid for, and only its expiry changes. */
    method ProlongValue(env: Env, name: string, ttl: int, maxSize: int, first: nat, second: nat) returns (r: Result<int>)
      modifies this
      ensures var st := old(State());
              var read := st.(now := st.now + first);
              var write := read.(now := read.now + second);
              if ttl <= 0 then r == Err(InvalidArgument) && State() == st
              else if !Readable(st, name) then r == Err(NotFound) && State() == st
              else if env.usage(st.values[name].value) > maxSize then r == Err(PermissionDenied) && State() == st
              else
                && r == Ok(NewTtl(ttl, ReadTtl(Remaining(read, name), read.now)))
                && State() == SetExpiry(write, name, r.value)
                && (second == 0 ==> Remaining(State(), name) == Prolong(Remaining(st, name), read.now, ttl))
                && (name in values ==> values[name].value == st.values[name].value)
    {
      if ttl <= 0 {
        return Err(InvalidArgument);
      }
      if !Readable(State(), name) {
        return Err(NotFound);
      }
      var valueSize := env.usage(values[name].value);
      if valueSize > maxSize {
        return Err(PermissionDenied);
      }
      now := now + first;
      var oldTtl := ReadTtl(Remaining(State(), name), now);
      var newTtl := NewTtl(ttl, oldTtl);
      now := now + second;
      values := SetExpiry(State(), name, newTtl).values;
      return Ok(newTtl);
    }
  }
}

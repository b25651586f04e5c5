/** Content identifiers as internal/api/index.go and the multiformats CID specification use
    them.  The text encodings (base58, base32, ...) are opaque: a `Codec` is any decoder and
    encoder obeying the two laws in `Lawful`. */
module Cids {
  import opened Common

  const RAW := 0x55
  const DAG_PB := 0x70

  datatype Cid = Cid(version: nat, codec: nat, hash: string)

  datatype Codec = Codec(decode: string -> Option<Cid>, encode: Cid -> string)

  /** Decoding undoes encoding for version 1, and a version 0 CID is always dag-pb
      (multiformats CID specification, CIDv0). */
  ghost predicate Lawful(k: Codec) {
    && (forall codec: nat, hash: string ::
          k.decode(k.encode(Cid(1, codec, hash))) == Some(Cid(1, codec, hash)))
    && (forall s: string :: k.decode(s).Some? && k.decode(s).value.version != 1 ==>
          k.decode(s).value.codec == DAG_PB)
  }

  function NormalizeCidToV1(k: Codec, s: string): (r: Result<string>)
    ensures r.Err? ==> r.status == InvalidArgument
  {
    match k.decode(s)
    case None => Err(InvalidArgument)
    case Some(c) =>
      if c.version == 1 && c.codec != RAW && c.codec != DAG_PB then Err(InvalidArgument)
      else Ok(k.encode(Cid(1, c.codec, c.hash)))
  }

  /** A spelling that normalisation leaves alone. */
  predicate Canonical(k: Codec, s: string) {
    NormalizeCidToV1(k, s) == Ok(s)
  }

  /** Exactly the raw (0x55) and dag-pb (0x70) CIDs are accepted, in either version, and the canonical form
      names the same content. */
  lemma AcceptedIffRawOrDagPb(k: Codec, s: string)
    requires Lawful(k)
    ensures NormalizeCidToV1(k, s).Ok? <==>
            k.decode(s).Some? && (k.decode(s).value.codec == 0x55 || k.decode(s).value.codec == 0x70)
    ensures NormalizeCidToV1(k, s).Ok? ==>
              k.decode(NormalizeCidToV1(k, s).value) == Some(k.decode(s).value.(version := 1))
  {
    if k.decode(s).Some? {
      var c := k.decode(s).value;
      assert k.decode(k.encode(Cid(1, c.codec, c.hash))) == Some(c.(version := 1));
    }
  }

  /** Normalising twice is normalising once: an accepted spelling leads to a canonical one. */
  lemma NormalizeIsIdempotent(k: Codec, s: string)
    requires Lawful(k)
    requires NormalizeCidToV1(k, s).Ok?
    ensures Canonical(k, NormalizeCidToV1(k, s).value)
  {
  }

  /** Two accepted spellings reach the same key exactly when they name the same content:
      same codec, same hash, whatever their versions. */
  lemma SameKeyIffSameContent(k: Codec, s: string, t: string)
    requires Lawful(k)
    requires NormalizeCidToV1(k, s).Ok? && NormalizeCidToV1(k, t).Ok?
    ensures NormalizeCidToV1(k, s) == NormalizeCidToV1(k, t) <==>
            k.decode(s).value.codec == k.decode(t).value.codec
            && k.decode(s).value.hash == k.decode(t).value.hash
  {
  }

  /** Canonical spellings are determined by what they decode to. */
  lemma CanonicalIsUnique(k: Codec, s: string, t: string)
    requires Canonical(k, s) && Canonical(k, t)
    requires k.decode(s) == k.decode(t)
    ensures s == t
  {
  }
}

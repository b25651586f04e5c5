/** Requests, their prices (pkg/middleware/pricing.go) and the size rules the validation
    interceptor enforces from pkg/proto/kvstore/v1/kvstore.proto. */
module Pricing {
  import opened Common

  datatype Procedure =
    | CreateValue | CreateStreamValue | GetValue | GetStreamValue | ListStreamValues
    | ProlongValue | SearchCid | SearchInstance | CreateSession | RegisterInstance
    | Ping | DelegatedRouting

  /** The parts of a request that its price or its storage depend on. */
  datatype Message =
    | RegisterInstanceRequest(cids: seq<string>)
    | CreateValueRequest(value: Bytes)
    | ProlongValueRequest(maxSize: int)
    | CreateStreamValueRequest(entry: Bytes)
    | OtherRequest

  datatype Request = Request(procedure: Procedure, message: Message)

  const STREAM_BYTE_PRICE := 100

  function GetPrice(req: Request): Result<int> {
    match req.procedure
    case RegisterInstance =>
      if req.message.RegisterInstanceRequest? then Ok(Wrap64(|req.message.cids|)) else Err(Internal)
    case CreateValue =>
      if req.message.CreateValueRequest? then Ok(Wrap64(|req.message.value|)) else Err(Internal)
    case ProlongValue =>
      if req.message.ProlongValueRequest? then Ok(Wrap64(req.message.maxSize)) else Err(Internal)
    case CreateStreamValue =>
      if req.message.CreateStreamValueRequest?
      then Ok(Wrap64(STREAM_BYTE_PRICE * |req.message.entry|)) else Err(Internal)
    case _ => Ok(1)
  }

  const FREE_PROCEDURES := [CreateSession, SearchCid, SearchInstance, Ping, DelegatedRouting]

  /** What validation guarantees about sizes before any handler runs.  Slice lengths are Go
      ints and max_size is an int64. */
  predicate WithinLimits(req: Request) {
    match req.message
    case RegisterInstanceRequest(cids) => 1 <= |cids| <= MAX_INT64
    case CreateValueRequest(value) => 1 <= |value| <= 1073741824
    case ProlongValueRequest(maxSize) => 0 < maxSize <= MAX_INT64
    case CreateStreamValueRequest(entry) => 1 <= |entry| <= 4096
    case OtherRequest => true
  }

  /** The procedures nobody pays for. */
  predicate Free(p: Procedure) {
    p.CreateSession? || p.SearchCid? || p.SearchInstance? || p.Ping? || p.DelegatedRouting?
  }

  /** What handling a request may make the store hold, paid for or not: value bytes, a hundred
      for each stream byte, CIDs and the size cap of a prolong. */
  function Units(req: Request): nat {
    match req.message
    case RegisterInstanceRequest(cids) => |cids|
    case CreateValueRequest(value) => |value|
    case ProlongValueRequest(maxSize) => if maxSize > 0 then maxSize else 0
    case CreateStreamValueRequest(entry) => STREAM_BYTE_PRICE * |entry|
    case OtherRequest => 0
  }

  /** connect decodes the message type that belongs to the procedure. */
  predicate WellTyped(req: Request) {
    match req.procedure
    case RegisterInstance => req.message.RegisterInstanceRequest?
    case CreateValue => req.message.CreateValueRequest?
    case ProlongValue => req.message.ProlongValueRequest?
    case CreateStreamValue => req.message.CreateStreamValueRequest?
    case _ => req.message.OtherRequest?
  }

  /** Once validation has passed, the price that was charged before it is exactly the units
      stored, or one for a call that stores nothing: no int64 product wraps within the limits. */
  lemma PriceCoversUnits(req: Request)
    requires WellTyped(req) && WithinLimits(req) && req.procedure !in FREE_PROCEDURES
    ensures GetPrice(req) == Ok(if req.message.OtherRequest? then 1 else Units(req))
    ensures GetPrice(req).value > 0
  {
  }

  /** What nobody pays for stores nothing. */
  lemma FreeCallsStoreNothing(req: Request)
    requires WellTyped(req) && req.procedure in FREE_PROCEDURES
    ensures Units(req) == 0
  {
  }

  /** Exactly five procedures are free. */
  lemma FreeIff(p: Procedure)
    ensures p in FREE_PROCEDURES <==> Free(p)
  {
  }

  /** The price list in numbers, for sizes that fit int64: one for a CID, one for a value byte, the
      size cap of a prolong, one hundred for a stream byte, and one for anything else. */
  lemma PriceList(cids: seq<string>, value: Bytes, maxSize: int, entry: Bytes, p: Procedure)
    requires |cids| < TWO_63 && |value| < TWO_63 && IsInt64(maxSize) && 100 * |entry| < TWO_63
    requires !(p.RegisterInstance? || p.CreateValue? || p.ProlongValue? || p.CreateStreamValue?)
    ensures GetPrice(Request(RegisterInstance, RegisterInstanceRequest(cids))) == Ok(|cids|)
    ensures GetPrice(Request(CreateValue, CreateValueRequest(value))) == Ok(|value|)
    ensures GetPrice(Request(ProlongValue, ProlongValueRequest(maxSize))) == Ok(maxSize)
    ensures GetPrice(Request(CreateStreamValue, CreateStreamValueRequest(entry))) == Ok(100 * |entry|)
    ensures GetPrice(Request(p, OtherRequest)) == Ok(1)
  {
  }

  /** A message of the wrong type has no price. */
  lemma MistypedHasNoPrice(req: Request)
    requires req.procedure.RegisterInstance? || req.procedure.CreateValue?
             || req.procedure.ProlongValue? || req.procedure.CreateStreamValue?
    ensures GetPrice(req) == Err(Internal) <==> !WellTyped(req)
  {
  }

  /** The limits in prices: a valid value costs up to 2^30, a valid stream entry 100 to 409600. */
  lemma LimitsInPrices(req: Request)
    requires WellTyped(req) && (req.procedure.CreateValue? || req.procedure.CreateStreamValue?)
    requires GetPrice(req) == Ok(Units(req))
    ensures WithinLimits(req) <==>
            if req.procedure.CreateValue? then 1 <= GetPrice(req).value <= 1073741824
            else 100 <= GetPrice(req).value <= 409600
  {
  }

  /** Without the size limit, the price of a stream entry of any length a Go slice can have is
      the intended one exactly when that fits int64. */
  lemma StreamPriceExactIff(entry: Bytes)
    requires |entry| <= MAX_INT64
    ensures var price := GetPrice(Request(CreateStreamValue, CreateStreamValueRequest(entry)));
            price == Ok(100 * |entry|) <==> 100 * |entry| < 0x8000_0000_0000_0000
  {
  }

  /** Beyond that it wraps: 2^62 stream bytes would cost nothing. */
  lemma PriceWrapsForHugeEntries(entry: Bytes)
    requires |entry| == TWO_63 / 2
    ensures GetPrice(Request(CreateStreamValue, CreateStreamValueRequest(entry))) == Ok(0)
  {
  }
}

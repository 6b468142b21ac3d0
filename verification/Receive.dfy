/**
 TTS-0006 payload receive policy, and the exchange end to end.

 Item bytes, signatures and hashes are opaque. `Codec` holds what reading bytes
 gives either side; `Lawful` states what is relied on and nothing is assumed
 beyond it. Client and server validate with their own key resolvers, so each has
 its own `validate`.
 */
module Receive {
  import opened Wrappers
  import opened ResponseTracker

  const ACCEPTED := 68
  const REJECTED := 67
  const PUBLIC_KEY_REQUEST := 72
  const TLV_HASH := 99

  predicate IsRequest(typeCode: nat) {
    typeCode in {64, 65, 66, 69, 70, 71, 72}
  }

  predicate IsDefined(typeCode: nat) {
    typeCode <= 9 || 64 <= typeCode <= 74 || 96 <= typeCode <= 99 || 101 <= typeCode <= 121
  }

  predicate IsResponse(typeCode: nat) {
    typeCode == ACCEPTED || typeCode == REJECTED
  }

  /** One encoded TLV: its type and the rest of its bytes. */
  datatype Value = Value(typeCode: nat, body: nat)

  /** One payload SignedTLV: the values its SignedData holds, and the rest of its bytes. */
  datatype Payload = Payload(data: seq<Value>, seal: nat)

  /** What verifying the SignedTLV said. */
  datatype Seal = Authentic | BadSignature | Unreadable

  datatype Codec = Codec(identifier: Value -> Option<nat>, hash: Payload -> Hash)

  /** `validate_item`: an error, an item, or nothing for a value of no interest. */
  type Validate = Value -> Result<Option<Item>, ()>

  ghost predicate Lawful(codec: Codec, validate: Validate) {
    && (forall p: Payload, q: Payload :: codec.hash(p) == codec.hash(q) ==> p == q)
    && (forall v: Value :: IsRequest(v.typeCode) && validate(v).Ok? ==>
          && validate(v).value.Some? && validate(v).value.value.kind.Asks?
          && codec.identifier(v) == Some(validate(v).value.value.identifier)
          && (validate(v).value.value.kind.request == PublicKeyRequest <==> v.typeCode == PUBLIC_KEY_REQUEST))
    && (forall v: Value :: !IsRequest(v.typeCode) && validate(v).Ok? && validate(v).value.Some? ==>
          !validate(v).value.value.kind.Asks?)
    && (forall v: Value :: !IsDefined(v.typeCode) ==> validate(v) == Ok(None))
  }

  datatype ReceivedRequest = Valid(item: Item) | DataError(identifier: nat)

  datatype Received = Received(responseTo: Hash, requests: seq<ReceivedRequest>,
                               responses: seq<Item>, closeAfterReply: bool)

  datatype ReceiveError =
    | Bundle | InvalidRequestIdentifier | DuplicateRequestIdentifier
    | UnauthenticatedResponse | UnexpectedPayloadValue

  function Identifier(r: ReceivedRequest): nat {
    match r case Valid(item) => item.identifier case DataError(id) => id
  }

  /** The values after the header hash, when there is one. */
  function Body(data: seq<Value>): seq<Value> {
    if data != [] && data[0].typeCode == TLV_HASH then data[1..] else data
  }

  function Requests(values: seq<Value>): seq<Value> {
    if values == [] then []
    else (if IsRequest(values[0].typeCode) then [values[0]] else []) + Requests(values[1..])
  }

  /** Every request must be identifiable, and no identifier used twice. */
  function Preflight(codec: Codec, values: seq<Value>, seen: set<nat>): Option<ReceiveError> {
    if values == [] then None
    else if !IsRequest(values[0].typeCode) then Preflight(codec, values[1..], seen)
    else match codec.identifier(values[0])
      case None => Some(InvalidRequestIdentifier)
      case Some(id) =>
        if id in seen then Some(DuplicateRequestIdentifier)
        else Preflight(codec, values[1..], seen + {id})
  }

  function IdOf(codec: Codec, v: Value): nat {
    if codec.identifier(v).Some? then codec.identifier(v).value else 0
  }

  function DataErrors(codec: Codec, values: seq<Value>): seq<ReceivedRequest> {
    if values == [] then []
    else
      (if IsRequest(values[0].typeCode) then [DataError(IdOf(codec, values[0]))] else [])
      + DataErrors(codec, values[1..])
  }

  predicate HasResponse(values: seq<Value>) {
    exists i :: 0 <= i < |values| && IsResponse(values[i].typeCode)
  }

  /** What one value of an authenticated, correlated payload contributes. */
  function Classify(codec: Codec, validate: Validate, v: Value)
    : Result<(seq<ReceivedRequest>, seq<Item>), ReceiveError>
  {
    if IsRequest(v.typeCode) then
      match validate(v)
      case Ok(Some(item)) => Ok(([Valid(item)], []))
      case Ok(None) => Ok(([], []))
      case Err(_) => Ok(([DataError(IdOf(codec, v))], []))
    else if IsResponse(v.typeCode) then
      match validate(v)
      case Ok(Some(item)) => Ok(([], [item]))
      case Ok(None) => Ok(([], []))
      case Err(_) => Err(Bundle)
    else if IsDefined(v.typeCode) then Err(UnexpectedPayloadValue)
    else Ok(([], []))
  }

  type Sorted = Result<(seq<ReceivedRequest>, seq<Item>), ReceiveError>

  /** A result with more in front of it. */
  function After(requests: seq<ReceivedRequest>, responses: seq<Item>, rest: Sorted): Sorted {
    match rest
    case Err(e) => Err(e)
    case Ok(both) => Ok((requests + both.0, responses + both.1))
  }

  function ClassifyAll(codec: Codec, validate: Validate, values: seq<Value>): Sorted {
    if values == [] then Ok(([], []))
    else match Classify(codec, validate, values[0])
      case Err(e) => Err(e)
      case Ok(first) => After(first.0, first.1, ClassifyAll(codec, validate, values[1..]))
  }

  predicate CorrectHeader(data: seq<Value>, headerHash: nat) {
    data != [] && data[0] == Value(TLV_HASH, headerHash)
  }

  function ReceivePayload(codec: Codec, validate: Validate, p: Payload, seal: Seal, headerHash: nat)
    : Result<Received, ReceiveError>
  {
    if seal == Unreadable then Err(Bundle)
    else
      var values := Body(p.data);
      var responseTo := codec.hash(p);
      match Preflight(codec, values, {})
      case Some(e) => Err(e)
      case None =>
        if seal == BadSignature then
          if HasResponse(values) then Err(UnauthenticatedResponse)
          else Ok(Received(responseTo, DataErrors(codec, values), [], false))
        else if !CorrectHeader(p.data, headerHash) then
          Ok(Received(responseTo, DataErrors(codec, values), [], true))
        else
          match ClassifyAll(codec, validate, values)
          case Err(e) => Err(e)
          case Ok(sorted) => Ok(Received(responseTo, sorted.0, sorted.1, false))
  }

  // The loops of `receive_payload`, proved against that function.

  method PreflightLoop(codec: Codec, values: seq<Value>) returns (error: Option<ReceiveError>)
    ensures error == Preflight(codec, values, {})
  {
    var seen: set<nat> := {};
    for i := 0 to |values|
      invariant Preflight(codec, values[i..], seen) == Preflight(codec, values, {})
    {
      assert values[i..][0] == values[i] && values[i..][1..] == values[i + 1..];
      if IsRequest(values[i].typeCode) {
        var id := codec.identifier(values[i]);
        if id.None? { return Some(InvalidRequestIdentifier); }
        if id.value in seen { return Some(DuplicateRequestIdentifier); }
        seen := seen + {id.value};
      }
    }
    return None;
  }

  method DataErrorLoop(codec: Codec, values: seq<Value>) returns (requests: seq<ReceivedRequest>)
    ensures requests == DataErrors(codec, values)
  {
    requests := [];
    for i := 0 to |values|
      invariant requests + DataErrors(codec, values[i..]) == DataErrors(codec, values)
    {
      assert values[i..][0] == values[i] && values[i..][1..] == values[i + 1..];
      if IsRequest(values[i].typeCode) {
        requests := requests + [DataError(IdOf(codec, values[i]))];
      }
    }
  }

  method SortLoop(codec: Codec, validate: Validate, values: seq<Value>) returns (r: Sorted)
    ensures r == ClassifyAll(codec, validate, values)
  {
    var requests: seq<ReceivedRequest>, responses: seq<Item> := [], [];
    assert After([], [], ClassifyAll(codec, validate, values)) == ClassifyAll(codec, validate, values) by {
      if ClassifyAll(codec, validate, values).Ok? {
        var both := ClassifyAll(codec, validate, values).value;
        assert [] + both.0 == both.0 && [] + both.1 == both.1;
      }
    }
    for i := 0 to |values|
      invariant After(requests, responses, ClassifyAll(codec, validate, values[i..]))
        == ClassifyAll(codec, validate, values)
    {
      assert values[i..][0] == values[i] && values[i..][1..] == values[i + 1..];
      var one := Classify(codec, validate, values[i]);
      if one.Err? { return one; }
      ghost var rest := ClassifyAll(codec, validate, values[i + 1..]);
      if rest.Ok? {
        assert requests + (one.value.0 + rest.value.0) == requests + one.value.0 + rest.value.0;
        assert responses + (one.value.1 + rest.value.1) == responses + one.value.1 + rest.value.1;
      }
      requests, responses := requests + one.value.0, responses + one.value.1;
    }
    assert requests + [] == requests && responses + [] == responses;
    return Ok((requests, responses));
  }

  /** `receive_payload` itself. */
  method ReceiveLoop(codec: Codec, validate: Validate, p: Payload, seal: Seal, headerHash: nat)
    returns (r: Result<Received, ReceiveError>)
    ensures r == ReceivePayload(codec, validate, p, seal, headerHash)
  {
    if seal == Unreadable { return Err(Bundle); }
    var values := Body(p.data);
    var error := PreflightLoop(codec, values);
    if error.Some? { return Err(error.value); }
    if seal == BadSignature {
      if HasResponse(values) { return Err(UnauthenticatedResponse); }
      var requests := DataErrorLoop(codec, values);
      return Ok(Received(codec.hash(p), requests, [], false));
    }
    if !CorrectHeader(p.data, headerHash) {
      var requests := DataErrorLoop(codec, values);
      return Ok(Received(codec.hash(p), requests, [], true));
    }
    var sorted := SortLoop(codec, validate, values);
    match sorted {
      case Err(e) => return Err(e);
      case Ok(both) => return Ok(Received(codec.hash(p), both.0, both.1, false));
    }
  }

  /** Nothing in an unauthenticated or uncorrelated payload is acted on: one refusal per request, no response. */
  lemma UntrustedYieldsOnlyErrors(codec: Codec, validate: Validate, p: Payload, seal: Seal, headerHash: nat)
    requires seal != Authentic || !CorrectHeader(p.data, headerHash)
    requires ReceivePayload(codec, validate, p, seal, headerHash).Ok?
    ensures var got := ReceivePayload(codec, validate, p, seal, headerHash).value;
      && got.responses == [] && |got.requests| == |Requests(Body(p.data))|
      && forall i :: 0 <= i < |got.requests| ==>
           codec.identifier(Requests(Body(p.data))[i]) == Some(Identifier(got.requests[i]))
             && got.requests[i].DataError?
  {
    DataErrorsMatch(codec, Body(p.data), {});
  }

  lemma {:induction false} DataErrorsMatch(codec: Codec, values: seq<Value>, seen: set<nat>)
    requires Preflight(codec, values, seen) == None
    ensures var got, asked := DataErrors(codec, values), Requests(values);
      && |got| == |asked|
      && forall i :: 0 <= i < |got| ==>
           got[i].DataError? && codec.identifier(asked[i]) == Some(got[i].identifier)
    decreases |values|
  {
    if values != [] {
      if IsRequest(values[0].typeCode) {
        DataErrorsMatch(codec, values[1..], seen + {codec.identifier(values[0]).value});
      } else {
        DataErrorsMatch(codec, values[1..], seen);
      }
    }
  }

  // The client's side: what it waits for after sending a bundle.

  /** `validate_payload` over the values after the header hash. */
  function ValidateAll(validate: Validate, values: seq<Value>, seen: set<nat>): Result<seq<Item>, ()> {
    if values == [] then Ok([])
    else match validate(values[0])
      case Err(_) => Err(())
      case Ok(None) => ValidateAll(validate, values[1..], seen)
      case Ok(Some(item)) =>
        var request := IsRequest(values[0].typeCode);
        if request && item.identifier in seen then Err(())
        else match ValidateAll(validate, values[1..], if request then seen + {item.identifier} else seen)
          case Err(_) => Err(())
          case Ok(rest) => Ok([item] + rest)
  }

  function Outstanding(hash: Hash, items: seq<Item>): seq<Request> {
    if items == [] then []
    else
      (if items[0].kind.Asks? then [Request(hash, items[0].identifier, items[0].kind.request)] else [])
      + Outstanding(hash, items[1..])
  }

  /** `ResponseTracker::for_bundle`. */
  function ForBundle(codec: Codec, validate: Validate, bundle: seq<Payload>): Result<seq<Request>, ()> {
    if bundle == [] then Ok([])
    else
      var p := bundle[0];
      match ValidateAll(validate, if p.data == [] then [] else p.data[1..], {})
      case Err(_) => Err(())
      case Ok(items) =>
        match ForBundle(codec, validate, bundle[1..])
        case Err(_) => Err(())
        case Ok(rest) => Ok(Outstanding(codec.hash(p), items) + rest)
  }

  /** The server's reply to one received payload: one response for each request, naming it. */
  ghost predicate Answers(got: Received, items: seq<Item>) {
    && |items| == |got.requests|
    && forall i :: 0 <= i < |items| ==>
         && !items[i].kind.Asks? && items[i].responseTo == Some(got.responseTo)
         && items[i].identifier == Identifier(got.requests[i])
         && (items[i].carriesPublicKey ==>
               got.requests[i].Valid? && got.requests[i].item.kind == Asks(PublicKeyRequest))
  }

  ghost predicate Distinct(bundle: seq<Payload>) {
    forall i, j :: 0 <= i < j < |bundle| ==> bundle[i] != bundle[j]
  }

  /** The k-th item answers the k-th outstanding request. */
  ghost predicate Matched(o: seq<Request>, items: seq<Item>) {
    && |o| == |items|
    && forall k :: 0 <= k < |o| ==>
         && !items[k].kind.Asks? && items[k].responseTo.Some? && ItemKey(items[k]) == KeyOf(o[k])
         && (items[k].carriesPublicKey ==> o[k].kind == PublicKeyRequest)
  }

  /** What the two sides make of the same values, position by position. */
  ghost predicate SameRequests(hash: Hash, o: seq<Request>, got: seq<ReceivedRequest>) {
    && |o| == |got|
    && forall k :: 0 <= k < |o| ==>
         && o[k].hash == hash && o[k].identifier == Identifier(got[k])
         && (got[k].Valid? && got[k].item.kind == Asks(PublicKeyRequest) ==> o[k].kind == PublicKeyRequest)
  }

  /** What the client waits for from these values. */
  function Waits(ours: Validate, hash: Hash, values: seq<Value>, seen: set<nat>): seq<Request>
    requires ValidateAll(ours, values, seen).Ok?
  {
    Outstanding(hash, ValidateAll(ours, values, seen).value)
  }

  lemma WaitsStep(codec: Codec, ours: Validate, hash: Hash, values: seq<Value>, seen: set<nat>)
    requires Lawful(codec, ours) && ValidateAll(ours, values, seen).Ok? && values != [] && IsRequest(values[0].typeCode)
    ensures ours(values[0]).Ok? && ours(values[0]).value.Some?
    ensures var item := ours(values[0]).value.value;
      && item.kind.Asks? && codec.identifier(values[0]) == Some(item.identifier) && item.identifier !in seen
      && (item.kind.request == PublicKeyRequest <==> values[0].typeCode == PUBLIC_KEY_REQUEST)
      && ValidateAll(ours, values[1..], seen + {item.identifier}).Ok?
      && Waits(ours, hash, values, seen)
         == [Request(hash, item.identifier, item.kind.request)]
           + Waits(ours, hash, values[1..], seen + {item.identifier})
  {
    var item := ours(values[0]).value.value;
    var items, later := ValidateAll(ours, values, seen).value,
      ValidateAll(ours, values[1..], seen + {item.identifier}).value;
    assert items[0] == item && items[1..] == later;
  }

  /** A value that is no request adds nothing to what the client waits for, whatever it is. */
  lemma WaitsSkip(codec: Codec, ours: Validate, hash: Hash, values: seq<Value>, seen: set<nat>)
    requires Lawful(codec, ours) && ValidateAll(ours, values, seen).Ok?
    requires values != [] && !IsRequest(values[0].typeCode)
    ensures ValidateAll(ours, values[1..], seen).Ok?
    ensures Waits(ours, hash, values, seen) == Waits(ours, hash, values[1..], seen)
  {
    var items, later := ValidateAll(ours, values, seen).value, ValidateAll(ours, values[1..], seen).value;
    assert items != later ==> items[0] == ours(values[0]).value.value && items[1..] == later;
  }

  /** What the client could validate passes the server's preflight. */
  lemma {:induction false} PreflightPasses(codec: Codec, ours: Validate, hash: Hash, values: seq<Value>, seen: set<nat>)
    requires Lawful(codec, ours) && ValidateAll(ours, values, seen).Ok?
    ensures Preflight(codec, values, seen) == None
    decreases |values|
  {
    if values != [] {
      if IsRequest(values[0].typeCode) {
        WaitsStep(codec, ours, hash, values, seen);
        PreflightPasses(codec, ours, hash, values[1..], seen + {ours(values[0]).value.value.identifier});
      } else {
        WaitsSkip(codec, ours, hash, values, seen);
        PreflightPasses(codec, ours, hash, values[1..], seen);
      }
    }
  }

  /** The client's accounting and the server's reading of one payload agree. */
  lemma {:induction false} SidesAgree(codec: Codec, ours: Validate, theirs: Validate, hash: Hash,
                                      values: seq<Value>, seen: set<nat>)
    requires Lawful(codec, ours) && Lawful(codec, theirs)
    requires ValidateAll(ours, values, seen).Ok? && ClassifyAll(codec, theirs, values).Ok?
    ensures SameRequests(hash, Waits(ours, hash, values, seen), ClassifyAll(codec, theirs, values).value.0)
    decreases |values|
  {
    if values != [] {
      hide Waits, ValidateAll;
      if IsRequest(values[0].typeCode) {
        WaitsStep(codec, ours, hash, values, seen);
        SidesAgree(codec, ours, theirs, hash, values[1..], seen + {ours(values[0]).value.value.identifier});
      } else {
        WaitsSkip(codec, ours, hash, values, seen);
        SidesAgree(codec, ours, theirs, hash, values[1..], seen);
      }
    }
  }

  lemma {:induction false} WaitsDistinct(codec: Codec, ours: Validate, hash: Hash, values: seq<Value>, seen: set<nat>)
    requires Lawful(codec, ours) && ValidateAll(ours, values, seen).Ok?
    ensures var o := Waits(ours, hash, values, seen);
      DistinctKeys(o) && forall r :: r in o ==> r.hash == hash && r.identifier !in seen
    decreases |values|
  {
    if values != [] {
      if IsRequest(values[0].typeCode) {
        WaitsStep(codec, ours, hash, values, seen);
        WaitsDistinct(codec, ours, hash, values[1..], seen + {ours(values[0]).value.value.identifier});
      } else {
        WaitsSkip(codec, ours, hash, values, seen);
        WaitsDistinct(codec, ours, hash, values[1..], seen);
      }
    }
  }

  /** One payload: the reply to what the server read from it matches what the client waits for. */
  lemma PayloadMatched(codec: Codec, ours: Validate, theirs: Validate, p: Payload, headerHash: nat, reply: seq<Item>)
    requires Lawful(codec, ours) && Lawful(codec, theirs) && CorrectHeader(p.data, headerHash)
    requires ValidateAll(ours, p.data[1..], {}).Ok?
    requires ReceivePayload(codec, theirs, p, Authentic, headerHash).Ok?
    requires Answers(ReceivePayload(codec, theirs, p, Authentic, headerHash).value, reply)
    ensures var o := Waits(ours, codec.hash(p), p.data[1..], {});
      DistinctKeys(o) && Matched(o, reply) && forall r :: r in o ==> r.hash == codec.hash(p)
  {
    assert Body(p.data) == p.data[1..];
    SidesAgree(codec, ours, theirs, codec.hash(p), p.data[1..], {});
    WaitsDistinct(codec, ours, codec.hash(p), p.data[1..], {});
  }

  /** `replies[i]` answers payload `i`. */
  ghost predicate Replied(codec: Codec, theirs: Validate, bundle: seq<Payload>, headerHash: nat,
                          replies: seq<seq<Item>>)
  {
    && |replies| == |bundle|
    && forall i :: 0 <= i < |bundle| ==>
         var r := ReceivePayload(codec, theirs, bundle[i], Authentic, headerHash);
         r.Ok? && Answers(r.value, replies[i])
  }

  function Flat(replies: seq<seq<Item>>): seq<Item> {
    if replies == [] then [] else replies[0] + Flat(replies[1..])
  }

  /** The bundle's first payload, and what is waited for after it. */
  lemma ForBundleStep(codec: Codec, ours: Validate, bundle: seq<Payload>)
    requires bundle != [] && bundle[0].data != [] && ForBundle(codec, ours, bundle).Ok?
    ensures ValidateAll(ours, bundle[0].data[1..], {}).Ok? && ForBundle(codec, ours, bundle[1..]).Ok?
    ensures ForBundle(codec, ours, bundle).value
      == Waits(ours, codec.hash(bundle[0]), bundle[0].data[1..], {}) + ForBundle(codec, ours, bundle[1..]).value
  {
    hide ValidateAll;
  }

  /** Whatever is waited for names a payload of the bundle. */
  lemma {:induction false} WaitsInBundle(codec: Codec, ours: Validate, bundle: seq<Payload>, r: Request)
    requires Lawful(codec, ours) && ForBundle(codec, ours, bundle).Ok? && r in ForBundle(codec, ours, bundle).value
    requires forall p :: p in bundle ==> p.data != []
    ensures exists p :: p in bundle && r.hash == codec.hash(p)
    decreases |bundle|
  {
    var p, rest := bundle[0], bundle[1..];
    assert p in bundle && forall q :: q in rest ==> q in bundle;
    ForBundleStep(codec, ours, bundle);
    hide ForBundle, ValidateAll, Waits, Lawful;
    if r in ForBundle(codec, ours, rest).value {
      WaitsInBundle(codec, ours, rest, r);
    } else {
      WaitsDistinct(codec, ours, codec.hash(p), p.data[1..], {});
    }
  }

  lemma {:induction false} BundleMatched(codec: Codec, ours: Validate, theirs: Validate, bundle: seq<Payload>,
                                         headerHash: nat, replies: seq<seq<Item>>)
    requires Lawful(codec, ours) && Lawful(codec, theirs) && Distinct(bundle)
    requires forall p :: p in bundle ==> CorrectHeader(p.data, headerHash)
    requires ForBundle(codec, ours, bundle).Ok?
    requires Replied(codec, theirs, bundle, headerHash, replies)
    ensures var o := ForBundle(codec, ours, bundle).value; DistinctKeys(o) && Matched(o, Flat(replies))
    decreases |bundle|
  {
    if bundle != [] {
      hide DistinctKeys, Matched, ReceivePayload, Answers, ValidateAll, Waits;
      var p, rest := bundle[0], bundle[1..];
      assert p in bundle && forall q :: q in rest ==> q in bundle && q != p;
      ForBundleStep(codec, ours, bundle);
      PayloadMatched(codec, ours, theirs, p, headerHash, replies[0]);
      BundleMatched(codec, ours, theirs, rest, headerHash, replies[1..]);
      var first := Waits(ours, codec.hash(p), p.data[1..], {});
      var later := ForBundle(codec, ours, rest).value;
      forall r | r in later ensures r.hash != codec.hash(p) {
        WaitsInBundle(codec, ours, rest, r);
        var q :| q in rest && r.hash == codec.hash(q);
      }
      hide Lawful, ForBundle;
      KeysApart(first, later, codec.hash(p));
      MatchedConcat(first, replies[0], later, Flat(replies[1..]));
    }
  }

  lemma MatchedConcat(a: seq<Request>, x: seq<Item>, b: seq<Request>, y: seq<Item>)
    requires Matched(a, x) && Matched(b, y)
    ensures Matched(a + b, x + y)
  {
  }

  /** Requests of one payload and requests with other hashes share no key. */
  lemma KeysApart(first: seq<Request>, later: seq<Request>, hash: Hash)
    requires DistinctKeys(first) && DistinctKeys(later)
    requires (forall r :: r in first ==> r.hash == hash) && (forall r :: r in later ==> r.hash != hash)
    ensures DistinctKeys(first + later)
  {
    var o := first + later;
    forall i, j | 0 <= i < j < |o| ensures KeyOf(o[i]) != KeyOf(o[j]) {
      if i < |first| && j >= |first| {
        assert o[i] in first && o[j] in later;
      } else if i >= |first| {
        assert KeyOf(later[i - |first|]) != KeyOf(later[j - |first|]);
      }
    }
  }

  lemma MatchedCompletes(o: seq<Request>, items: seq<Item>)
    requires DistinctKeys(o) && Matched(o, items)
    ensures ObserveAll(o, [], items).1 == None && |ObserveAll(o, [], items).0| == |o|
  {
    forall k | 0 <= k < |o| ensures Acceptable(o, items[k]) && KeyOf(o[k]) in AnswersOf(items) {
      assert Position(o, KeyOf(o[k])) == Some(k);
      AnswerKeys(items, KeyOf(o[k]));
      assert items[k] in items;
    }
    assert OneEach(o, items);
    RunMeaning(o, items);
    CompleteMeans(o, items);
  }

  /**
   End to end: byte-distinct payloads that open with the header hash, whatever else they
   carry; a server that answers each request it reads once; any delivery order whatever.
   The client ends complete and error-free.
   */
  lemma ExchangeCompletes(codec: Codec, ours: Validate, theirs: Validate, bundle: seq<Payload>, headerHash: nat,
                          replies: seq<seq<Item>>, delivered: seq<Item>)
    requires Lawful(codec, ours) && Lawful(codec, theirs) && Distinct(bundle)
    requires forall p :: p in bundle ==> CorrectHeader(p.data, headerHash)
    requires ForBundle(codec, ours, bundle).Ok?
    requires Replied(codec, theirs, bundle, headerHash, replies)
    requires multiset(delivered) == multiset(Flat(replies))
    ensures var o := ForBundle(codec, ours, bundle).value;
      var (completed, error) := ObserveAll(o, [], delivered);
      error == None && |completed| == |o|
  {
    var o := ForBundle(codec, ours, bundle).value;
    BundleMatched(codec, ours, theirs, bundle, headerHash, replies);
    MatchedCompletes(o, Flat(replies));
    OrderIrrelevant(o, Flat(replies), delivered);
  }

  /** A value the server can place: a request, a response that validates, or a type nobody has defined. */
  predicate Sortable(validate: Validate, v: Value) {
    IsRequest(v.typeCode) || if IsResponse(v.typeCode) then validate(v).Ok? else !IsDefined(v.typeCode)
  }

  lemma {:induction false} SortedExactly(codec: Codec, validate: Validate, values: seq<Value>)
    ensures ClassifyAll(codec, validate, values).Ok? <==> forall v :: v in values ==> Sortable(validate, v)
  {
    if values != [] {
      SortedExactly(codec, validate, values[1..]);
      assert Classify(codec, validate, values[0]).Ok? <==> Sortable(validate, values[0]);
      assert values == [values[0]] + values[1..];
    }
  }

  /**
   Of a bundle its own client could account for, the server accepts exactly the payloads
   whose every value it can place, so the replies above exist for exactly those.
   */
  lemma {:induction false} ServerAccepts(codec: Codec, ours: Validate, theirs: Validate, bundle: seq<Payload>,
                                         headerHash: nat, p: Payload)
    requires Lawful(codec, ours) && ForBundle(codec, ours, bundle).Ok?
    requires p in bundle && CorrectHeader(p.data, headerHash)
    ensures ReceivePayload(codec, theirs, p, Authentic, headerHash).Ok?
       <==> forall v :: v in p.data[1..] ==> Sortable(theirs, v)
    decreases |bundle|
  {
    if bundle[0] == p {
      assert Body(p.data) == p.data[1..];
      PreflightPasses(codec, ours, codec.hash(p), p.data[1..], {});
      SortedExactly(codec, theirs, p.data[1..]);
    } else {
      ServerAccepts(codec, ours, theirs, bundle[1..], headerHash, p);
    }
  }
}

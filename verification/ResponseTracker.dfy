/** TTS-0006 request accounting: which outstanding requests have been answered. */
module ResponseTracker {
  import opened Wrappers

  /** SignedTLV hashes and addresses are only ever compared, so they are opaque tokens. */
  type Hash = nat
  type Identity = nat

  datatype RequestKind =
    Message | File | FileRequest | PollMessages | PollFiles | PollFileRequests | PublicKeyRequest

  predicate RequiresReturnBundle(kind: RequestKind) {
    kind.FileRequest? || kind.PollMessages? || kind.PollFiles? || kind.PollFileRequests?
  }

  datatype Request = Request(hash: Hash, identifier: nat, kind: RequestKind)

  datatype ItemKind = Asks(request: RequestKind) | Accepted | Rejected

  /** What the tracker reads of a validated item. */
  datatype Item = Item(kind: ItemKind, identifier: nat, responseTo: Option<Hash>,
                       carriesPublicKey: bool, rejection: Option<nat>)

  datatype Completed = Completed(request: Request, response: ItemKind, rejection: Option<nat>)

  datatype Error =
    | InvalidResponse | UnexpectedResponse | DuplicateResponse
    | WrongReplyOrigin | WrongReplyDestination | Incomplete(expected: nat, received: nat)

  type Key = (Hash, nat)

  function KeyOf(r: Request): Key { (r.hash, r.identifier) }

  /** The first outstanding request with this key. */
  function Position(o: seq<Request>, key: Key): (p: Option<nat>)
    ensures p.Some? ==> p.value < |o| && KeyOf(o[p.value]) == key && forall j :: 0 <= j < p.value ==> KeyOf(o[j]) != key
    ensures p.None? ==> forall j :: 0 <= j < |o| ==> KeyOf(o[j]) != key
  {
    if o == [] then None
    else if KeyOf(o[0]) == key then Some(0)
    else
      var rest := Position(o[1..], key);
      assert forall j :: 0 < j < |o| ==> o[j] == o[1..][j - 1];
      if rest.Some? then Some(rest.value + 1) else None
  }

  predicate Named(o: seq<Request>, c: seq<Completed>) {
    forall e :: e in c ==> Position(o, KeyOf(e.request)).Some?
  }

  /** Where `partition_point` stops: the completed responses that come before position `p`. */
  function Leading(o: seq<Request>, c: seq<Completed>, p: nat): (n: nat)
    requires Named(o, c)
    ensures n <= |c|
  {
    if c == [] || Position(o, KeyOf(c[0].request)).value >= p then 0
    else 1 + Leading(o, c[1..], p)
  }

  /** What one `observe_response` does to the completed list. */
  function Observe(o: seq<Request>, c: seq<Completed>, item: Item): (r: Result<seq<Completed>, Error>)
    requires Named(o, c)
    ensures r.Ok? ==> Named(o, r.value)
  {
    if item.kind.Asks? then Err(InvalidResponse)
    else if item.responseTo.None? then Err(UnexpectedResponse)
    else
      var key := (item.responseTo.value, item.identifier);
      var position := Position(o, key);
      if position.None? then Err(UnexpectedResponse)
      else
        var request := o[position.value];
        if item.carriesPublicKey && request.kind != PublicKeyRequest then Err(UnexpectedResponse)
        else if exists e :: e in c && KeyOf(e.request) == key then Err(DuplicateResponse)
        else
          var at := Leading(o, c, position.value);
          Ok(c[..at] + [Completed(request, item.kind, item.rejection)] + c[at..])
  }

  /** `observe_responses`: stops at the first error, keeping what was recorded before it. */
  function ObserveAll(o: seq<Request>, c: seq<Completed>, items: seq<Item>): (r: (seq<Completed>, Option<Error>))
    requires Named(o, c)
    ensures Named(o, r.0)
    decreases |items|
  {
    if items == [] then (c, None)
    else
      match Observe(o, c, items[0])
      case Err(e) => (c, Some(e))
      case Ok(next) => ObserveAll(o, next, items[1..])
  }

  class Tracker {
    const origin: Identity
    const destination: Identity
    const outstanding: seq<Request>
    var completed: seq<Completed>

    constructor (origin: Identity, destination: Identity, outstanding: seq<Request>)
      ensures this.origin == origin && this.destination == destination
      ensures this.outstanding == outstanding && completed == [] && Valid()
    {
      this.origin, this.destination, this.outstanding := origin, destination, outstanding;
      completed := [];
    }

    ghost predicate Valid()
      reads this
    {
      Named(outstanding, completed)
    }

    method Find(key: Key) returns (p: Option<nat>)
      ensures p == Position(outstanding, key)
    {
      for i := 0 to |outstanding|
        invariant forall j :: 0 <= j < i ==> KeyOf(outstanding[j]) != key
      {
        if KeyOf(outstanding[i]) == key { return Some(i); }
      }
      return None;
    }

    method AlreadyAnswered(key: Key) returns (found: bool)
      ensures found == exists e :: e in completed && KeyOf(e.request) == key
    {
      for i := 0 to |completed|
        invariant forall e :: e in completed[..i] ==> KeyOf(e.request) != key
      {
        if KeyOf(completed[i].request) == key { return true; }
      }
      assert completed[..|completed|] == completed;
      return false;
    }

    /** The scan `partition_point` stands for; the list is ordered by position, so any scan agrees. */
    method InsertionPoint(p: nat) returns (at: nat)
      requires Valid()
      ensures at == Leading(outstanding, completed, p)
    {
      at := 0;
      while at < |completed|
        invariant at <= |completed|
        invariant at + Leading(outstanding, completed[at..], p) == Leading(outstanding, completed, p)
      {
        assert completed[at..][0] == completed[at] && completed[at..][1..] == completed[at + 1..];
        var existing := Find(KeyOf(completed[at].request));
        if existing.value >= p { return; }
        at := at + 1;
      }
    }

    method ObserveResponse(item: Item) returns (error: Option<Error>)
      requires Valid()
      modifies this`completed
      ensures Valid()
      ensures var r := Observe(outstanding, old(completed), item);
              match r
              case Ok(next) => error == None && completed == next
              case Err(e) => error == Some(e) && completed == old(completed)
    {
      if item.kind.Asks? { return Some(InvalidResponse); }
      if item.responseTo.None? { return Some(UnexpectedResponse); }
      var key := (item.responseTo.value, item.identifier);
      var position := Find(key);
      if position.None? { return Some(UnexpectedResponse); }
      var request := outstanding[position.value];
      if item.carriesPublicKey && request.kind != PublicKeyRequest { return Some(UnexpectedResponse); }
      var duplicate := AlreadyAnswered(key);
      if duplicate { return Some(DuplicateResponse); }
      var at := InsertionPoint(position.value);
      completed := completed[..at] + [Completed(request, item.kind, item.rejection)] + completed[at..];
      return None;
    }

    method ObserveResponses(items: seq<Item>) returns (error: Option<Error>)
      requires Valid()
      modifies this`completed
      ensures Valid()
      ensures (completed, error) == ObserveAll(outstanding, old(completed), items)
    {
      for i := 0 to |items|
        invariant Valid()
        invariant ObserveAll(outstanding, completed, items[i..]) == ObserveAll(outstanding, old(completed), items)
      {
        assert items[i..][0] == items[i] && items[i..][1..] == items[i + 1..];
        error := ObserveResponse(items[i]);
        if error.Some? { return; }
      }
      return None;
    }

    predicate IsComplete()
      reads this
    {
      |completed| == |outstanding|
    }
  }

  // What the list means: a map from answered keys to answers, listed in request order.

  type Answers = map<Key, (ItemKind, Option<nat>)>

  /** Nobody earlier in the list has this request's key. */
  predicate First(o: seq<Request>, k: nat)
    requires k < |o|
  {
    forall j :: 0 <= j < k ==> KeyOf(o[j]) != KeyOf(o[k])
  }

  /** The answered requests between two positions, in request order. */
  function Collect(o: seq<Request>, m: Answers, lo: nat, hi: nat): seq<Completed>
    requires lo <= hi <= |o|
    decreases hi - lo
  {
    if lo == hi then []
    else
      (if First(o, lo) && KeyOf(o[lo]) in m
       then [Completed(o[lo], m[KeyOf(o[lo])].0, m[KeyOf(o[lo])].1)] else [])
      + Collect(o, m, lo + 1, hi)
  }

  predicate Acceptable(o: seq<Request>, item: Item) {
    && !item.kind.Asks? && item.responseTo.Some?
    && var p := Position(o, (item.responseTo.value, item.identifier));
       p.Some? && (item.carriesPublicKey ==> o[p.value].kind == PublicKeyRequest)
  }

  function ItemKey(item: Item): Key {
    (if item.responseTo.Some? then item.responseTo.value else 0, item.identifier)
  }

  lemma {:induction false} CollectSplit(o: seq<Request>, m: Answers, lo: nat, mid: nat, hi: nat)
    requires lo <= mid <= hi <= |o|
    ensures Collect(o, m, lo, hi) == Collect(o, m, lo, mid) + Collect(o, m, mid, hi)
    decreases mid - lo
  {
    if lo < mid {
      CollectSplit(o, m, lo + 1, mid, hi);
    }
  }

  /** Every response in the list answers a request whose first position is in the range. */
  predicate Within(o: seq<Request>, c: seq<Completed>, lo: nat, hi: nat) {
    forall e :: e in c ==> var p := Position(o, KeyOf(e.request)); p.Some? && lo <= p.value < hi
  }

  lemma {:induction false} CollectPositions(o: seq<Request>, m: Answers, lo: nat, hi: nat)
    requires lo <= hi <= |o|
    ensures Within(o, Collect(o, m, lo, hi), lo, hi)
    ensures forall e :: e in Collect(o, m, lo, hi) ==> KeyOf(e.request) in m
    decreases hi - lo
  {
    if lo < hi {
      CollectPositions(o, m, lo + 1, hi);
      if First(o, lo) {
        assert Position(o, KeyOf(o[lo])) == Some(lo);
      }
    }
  }

  /** An answered key is listed when its first request is in range. */
  lemma {:induction false} CollectHas(o: seq<Request>, m: Answers, lo: nat, hi: nat, p: nat)
    requires lo <= p < hi <= |o| && First(o, p) && KeyOf(o[p]) in m
    ensures exists e :: e in Collect(o, m, lo, hi) && KeyOf(e.request) == KeyOf(o[p])
    decreases hi - lo
  {
    if lo == p {
      var e := Completed(o[lo], m[KeyOf(o[lo])].0, m[KeyOf(o[lo])].1);
      assert Collect(o, m, lo, hi)[0] == e;
    } else {
      CollectHas(o, m, lo + 1, hi, p);
      var e :| e in Collect(o, m, lo + 1, hi) && KeyOf(e.request) == KeyOf(o[p]);
      assert e in Collect(o, m, lo, hi);
    }
  }

  /** An answer for a key whose first request is out of range changes nothing there. */
  lemma {:induction false} CollectElsewhere(o: seq<Request>, m: Answers, lo: nat, hi: nat, p: nat,
                                            v: (ItemKind, Option<nat>))
    requires lo <= hi <= |o| && p < |o| && First(o, p) && !(lo <= p < hi)
    ensures Collect(o, m[KeyOf(o[p]) := v], lo, hi) == Collect(o, m, lo, hi)
    decreases hi - lo
  {
    if lo < hi {
      CollectElsewhere(o, m, lo + 1, hi, p, v);
      if lo < p {
        assert KeyOf(o[lo]) != KeyOf(o[p]);
      } else {
        assert First(o, lo) ==> KeyOf(o[lo]) != KeyOf(o[p]);
      }
    }
  }

  lemma {:induction false} LeadingOfSplit(o: seq<Request>, a: seq<Completed>, b: seq<Completed>, p: nat)
    requires p <= |o| && Within(o, a, 0, p) && Within(o, b, p, |o|)
    ensures Named(o, a + b) && Leading(o, a + b, p) == |a|
    decreases |a|
  {
    if a == [] {
      assert a + b == b;
    } else {
      assert (a + b)[0] == a[0] && (a + b)[1..] == a[1..] + b;
      LeadingOfSplit(o, a[1..], b, p);
      assert a[0] in a;
    }
  }

  /** One observation on the list is one insertion into the map, error for error. */
  lemma ObserveRefines(o: seq<Request>, m: Answers, item: Item)
    ensures var c := Collect(o, m, 0, |o|);
      && Named(o, c)
      && (if item.kind.Asks? then Observe(o, c, item) == Err(InvalidResponse)
          else if !Acceptable(o, item) then Observe(o, c, item) == Err(UnexpectedResponse)
          else if ItemKey(item) in m then Observe(o, c, item) == Err(DuplicateResponse)
          else Observe(o, c, item) == Ok(Collect(o, m[ItemKey(item) := (item.kind, item.rejection)], 0, |o|)))
  {
    var c := Collect(o, m, 0, |o|);
    CollectPositions(o, m, 0, |o|);
    if Acceptable(o, item) {
      var key := ItemKey(item);
      var p := Position(o, key).value;
      assert First(o, p);
      if key in m {
        CollectHas(o, m, 0, |o|, p);
      } else {
        InsertAt(o, m, p, (item.kind, item.rejection));
      }
    }
  }

  /** The list around a position that contributes nothing yet. */
  lemma CollectAround(o: seq<Request>, m: Answers, p: nat)
    requires p < |o| && KeyOf(o[p]) !in m
    ensures Collect(o, m, 0, |o|) == Collect(o, m, 0, p) + Collect(o, m, p + 1, |o|)
  {
    CollectSplit(o, m, 0, p, |o|);
  }

  /** The same list once that position is answered. */
  lemma CollectWith(o: seq<Request>, m: Answers, p: nat, v: (ItemKind, Option<nat>))
    requires p < |o| && First(o, p)
    ensures Collect(o, m[KeyOf(o[p]) := v], 0, |o|)
            == Collect(o, m, 0, p) + [Completed(o[p], v.0, v.1)] + Collect(o, m, p + 1, |o|)
  {
    var m2 := m[KeyOf(o[p]) := v];
    CollectSplit(o, m2, 0, p, |o|);
    CollectElsewhere(o, m, 0, p, p, v);
    CollectElsewhere(o, m, p + 1, |o|, p, v);
    assert Collect(o, m2, p, |o|) == [Completed(o[p], v.0, v.1)] + Collect(o, m2, p + 1, |o|);
  }

  lemma LeadingOfCollect(o: seq<Request>, m: Answers, p: nat)
    requires p < |o|
    ensures var a, b := Collect(o, m, 0, p), Collect(o, m, p + 1, |o|);
            Named(o, a + b) && Leading(o, a + b, p) == |a|
  {
    CollectPositions(o, m, 0, p);
    CollectPositions(o, m, p + 1, |o|);
    LeadingOfSplit(o, Collect(o, m, 0, p), Collect(o, m, p + 1, |o|), p);
  }

  lemma InsertAt(o: seq<Request>, m: Answers, p: nat, v: (ItemKind, Option<nat>))
    requires p < |o| && First(o, p) && KeyOf(o[p]) !in m
    ensures var c := Collect(o, m, 0, |o|);
      && Named(o, c)
      && var at := Leading(o, c, p);
         c[..at] + [Completed(o[p], v.0, v.1)] + c[at..] == Collect(o, m[KeyOf(o[p]) := v], 0, |o|)
  {
    var a, b := Collect(o, m, 0, p), Collect(o, m, p + 1, |o|);
    CollectAround(o, m, p);
    CollectWith(o, m, p, v);
    LeadingOfCollect(o, m, p);
    assert (a + b)[..|a|] == a && (a + b)[|a|..] == b;
  }

  // Whole runs of observations.

  /** The answers a list of items gives. */
  function AnswersOf(items: seq<Item>): Answers {
    if items == [] then map[]
    else
      var last := items[|items| - 1];
      AnswersOf(items[..|items| - 1])[ItemKey(last) := (last.kind, last.rejection)]
  }

  /** Each item answers some request of ours, and no two answer the same one. */
  ghost predicate OneEach(o: seq<Request>, items: seq<Item>) {
    && (forall i :: 0 <= i < |items| ==> Acceptable(o, items[i]))
    && (forall i, j :: 0 <= i < j < |items| ==> ItemKey(items[i]) != ItemKey(items[j]))
  }

  lemma {:induction false} AnswerKeys(items: seq<Item>, key: Key)
    ensures key in AnswersOf(items) <==> exists x :: x in items && ItemKey(x) == key
    decreases |items|
  {
    if items != [] {
      var n := |items| - 1;
      AnswerKeys(items[..n], key);
      assert items == items[..n] + [items[n]];
    }
  }

  /** One more item keeps `OneEach` exactly when it is acceptable and its key is new. */
  lemma OneEachStep(o: seq<Request>, a: seq<Item>, last: Item)
    ensures OneEach(o, a + [last]) <==> OneEach(o, a) && Acceptable(o, last) && ItemKey(last) !in AnswersOf(a)
  {
    var items := a + [last];
    AnswerKeys(a, ItemKey(last));
    if OneEach(o, items) {
      assert forall i :: 0 <= i < |a| ==> a[i] == items[i];
      assert Acceptable(o, items[|a|]);
      forall x | x in a ensures ItemKey(x) != ItemKey(last) {
        var i :| 0 <= i < |a| && a[i] == x;
        assert ItemKey(items[i]) != ItemKey(items[|a|]);
      }
    }
  }

  /** The result does not depend on how a run is split into payloads. */
  lemma {:induction false} ObserveAppend(o: seq<Request>, c: seq<Completed>, a: seq<Item>, b: seq<Item>)
    requires Named(o, c)
    ensures var (mid, error) := ObserveAll(o, c, a);
            ObserveAll(o, c, a + b) == if error.Some? then (mid, error) else ObserveAll(o, mid, b)
    decreases |a|
  {
    if a == [] {
      assert a + b == b;
    } else {
      assert (a + b)[0] == a[0] && (a + b)[1..] == a[1..] + b;
      match Observe(o, c, a[0])
      case Err(_) =>
      case Ok(next) => ObserveAppend(o, next, a[1..], b);
    }
  }

  lemma {:induction false} CollectNothing(o: seq<Request>, lo: nat)
    requires lo <= |o|
    ensures Collect(o, map[], lo, |o|) == []
    decreases |o| - lo
  {
    if lo < |o| { CollectNothing(o, lo + 1); }
  }

  /** A run succeeds exactly when it answers requests of ours, none twice; then it lists them in request order. */
  lemma {:induction false} RunMeaning(o: seq<Request>, items: seq<Item>)
    ensures ObserveAll(o, [], items).1 == None <==> OneEach(o, items)
    ensures OneEach(o, items) ==> ObserveAll(o, [], items).0 == Collect(o, AnswersOf(items), 0, |o|)
    decreases |items|
  {
    if items == [] {
      CollectNothing(o, 0);
    } else {
      var n := |items| - 1;
      var a, last := items[..n], items[n];
      assert items == a + [last];
      RunMeaning(o, a);
      OneEachStep(o, a, last);
      ObserveAppend(o, [], a, [last]);
      if OneEach(o, a) {
        ObserveRefines(o, AnswersOf(a), last);
        assert [last][1..] == [];
      }
    }
  }

  /** `OneEach` as a property of the items alone, whatever their order. */
  ghost predicate OneEachBag(o: seq<Request>, bag: multiset<Item>) {
    && (forall x :: x in bag ==> Acceptable(o, x) && bag[x] == 1)
    && (forall x, y :: x in bag && y in bag && x != y ==> ItemKey(x) != ItemKey(y))
  }

  lemma BagStep(o: seq<Request>, small: multiset<Item>, last: Item)
    ensures OneEachBag(o, small + multiset{last}) <==>
      OneEachBag(o, small) && Acceptable(o, last) && forall x :: x in small ==> ItemKey(x) != ItemKey(last)
  {
    var bag := small + multiset{last};
    assert forall x :: x in small ==> x in bag;
    assert last in bag && bag[last] == small[last] + 1;
    if OneEachBag(o, bag) {
      assert last !in small;
      forall x | x in small ensures small[x] == 1 && ItemKey(x) != ItemKey(last) {
        assert bag[x] == small[x];
      }
    }
  }

  lemma {:induction false} OneEachIsBag(o: seq<Request>, items: seq<Item>)
    ensures OneEach(o, items) <==> OneEachBag(o, multiset(items))
    decreases |items|
  {
    if items != [] {
      var n := |items| - 1;
      var a, last := items[..n], items[n];
      assert items == a + [last];
      assert multiset(items) == multiset(a) + multiset{last};
      assert forall x :: x in multiset(a) <==> x in a;
      OneEachIsBag(o, a);
      OneEachStep(o, a, last);
      BagStep(o, multiset(a), last);
      AnswerKeys(a, ItemKey(last));
    }
  }

  lemma {:induction false} AnswerValues(o: seq<Request>, items: seq<Item>, x: Item)
    requires OneEach(o, items) && x in items
    ensures ItemKey(x) in AnswersOf(items) && AnswersOf(items)[ItemKey(x)] == (x.kind, x.rejection)
    decreases |items|
  {
    var n := |items| - 1;
    var a, last := items[..n], items[n];
    assert items == a + [last];
    OneEachStep(o, a, last);
    if x != last {
      assert x in a;
      AnswerValues(o, a, x);
    }
  }

  lemma SameAnswers(o: seq<Request>, items: seq<Item>, other: seq<Item>)
    requires multiset(items) == multiset(other) && OneEach(o, items) && OneEach(o, other)
    ensures AnswersOf(items) == AnswersOf(other)
  {
    assert forall x :: x in items <==> x in multiset(items);
    assert forall x :: x in other <==> x in multiset(other);
    forall key ensures key in AnswersOf(items) <==> key in AnswersOf(other) {
      AnswerKeys(items, key);
      AnswerKeys(other, key);
    }
    forall key | key in AnswersOf(items) ensures AnswersOf(items)[key] == AnswersOf(other)[key] {
      AnswerKeys(items, key);
      var x :| x in items && ItemKey(x) == key;
      AnswerValues(o, items, x);
      AnswerValues(o, other, x);
    }
  }

  /** Arrival order does not matter: the same responses in any order leave the same completed list. */
  lemma OrderIrrelevant(o: seq<Request>, items: seq<Item>, other: seq<Item>)
    requires multiset(items) == multiset(other) && ObserveAll(o, [], items).1 == None
    ensures ObserveAll(o, [], other) == ObserveAll(o, [], items)
  {
    RunMeaning(o, items);
    RunMeaning(o, other);
    OneEachIsBag(o, items);
    OneEachIsBag(o, other);
    SameAnswers(o, items, other);
  }

  // Completion.

  predicate DistinctKeys(o: seq<Request>) {
    forall i, j :: 0 <= i < j < |o| ==> KeyOf(o[i]) != KeyOf(o[j])
  }

  lemma {:induction false} CollectLength(o: seq<Request>, m: Answers, lo: nat)
    requires lo <= |o|
    ensures |Collect(o, m, lo, |o|)| <= |o| - lo
    ensures |Collect(o, m, lo, |o|)| == |o| - lo <==>
              forall k :: lo <= k < |o| ==> First(o, k) && KeyOf(o[k]) in m
    decreases |o| - lo
  {
    if lo < |o| { CollectLength(o, m, lo + 1); }
  }

  /** `is_complete` after a successful run: every request answered, and no key asked twice. */
  lemma CompleteMeans(o: seq<Request>, items: seq<Item>)
    requires ObserveAll(o, [], items).1 == None
    ensures |ObserveAll(o, [], items).0| == |o| <==>
              DistinctKeys(o) && forall k :: 0 <= k < |o| ==> KeyOf(o[k]) in AnswersOf(items)
  {
    RunMeaning(o, items);
    CollectLength(o, AnswersOf(items), 0);
    if DistinctKeys(o) {
      assert forall k :: 0 <= k < |o| ==> First(o, k);
    }
    if forall k :: 0 <= k < |o| ==> First(o, k) {
      forall i, j | 0 <= i < j < |o| ensures KeyOf(o[i]) != KeyOf(o[j]) { assert First(o, j); }
    }
  }

  /** With distinct keys the completed list is exactly the answered requests, in request order. */
  lemma {:induction false} CompletedInOrder(o: seq<Request>, m: Answers, lo: nat)
    requires lo <= |o| && DistinctKeys(o)
    ensures Requests(Collect(o, m, lo, |o|)) == Answered(o[lo..], m)
    decreases |o| - lo
  {
    if lo < |o| {
      CompletedInOrder(o, m, lo + 1);
      assert o[lo..][0] == o[lo] && o[lo..][1..] == o[lo + 1..];
      assert First(o, lo);
      var whole, rest := Collect(o, m, lo, |o|), Collect(o, m, lo + 1, |o|);
      if KeyOf(o[lo]) in m {
        assert whole[0].request == o[lo] && whole[1..] == rest;
      } else {
        assert whole == rest;
      }
    }
  }

  function Requests(c: seq<Completed>): seq<Request> {
    if c == [] then [] else [c[0].request] + Requests(c[1..])
  }

  /** The sub-list of requests whose key is answered. */
  function Answered(o: seq<Request>, m: Answers): seq<Request> {
    if o == [] then []
    else (if KeyOf(o[0]) in m then [o[0]] else []) + Answered(o[1..], m)
  }
}

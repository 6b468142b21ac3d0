/** TSP-0015 key pins: effective-key resolution and the trust chain behind every stored pin. */
module KeyPins {
  import opened Wrappers

  type Key = nat
  type Address = string

  datatype Evidence = AuthorizedInitialObservation | AuthenticatedContinuityProof

  datatype Pin = Pin(current: Key, anchor: Option<Key>, predecessor: Option<Key>, observed: nat, evidence: Evidence)

  datatype Observation = Established(pin: Pin) | Unchanged(key: Key)

  /** The effective key: an anchor wins unless the pin was advanced from that same anchor. */
  function Resolve(pin: Option<Pin>, anchor: Option<Key>): Option<Key> {
    if pin.Some? && anchor.Some? && pin.value.anchor == anchor then Some(pin.value.current)
    else if anchor.Some? then anchor
    else if pin.Some? then Some(pin.value.current)
    else None
  }

  /** An event on one address, as a caller asks for it. */
  datatype Event =
    | ObserveInitial(key: Key, anchor: Option<Key>, observed: nat)
    | Advance(predecessor: Key, current: Key, anchor: Option<Key>, observed: nat)

  /** Whether the event writes the table. */
  predicate Writes(pin: Option<Pin>, e: Event) {
    match e
    case ObserveInitial(_, anchor, _) => Resolve(pin, anchor) == None
    case Advance(predecessor, _, anchor, _) => Resolve(pin, anchor) == Some(predecessor)
  }

  function After(pin: Option<Pin>, e: Event): Option<Pin> {
    if !Writes(pin, e) then pin
    else match e
      case ObserveInitial(key, _, observed) =>
        Some(Pin(key, None, None, observed, AuthorizedInitialObservation))
      case Advance(predecessor, current, anchor, observed) =>
        Some(Pin(current,
                 if anchor.Some? then anchor else if pin.Some? then pin.value.anchor else None,
                 Some(predecessor), observed, AuthenticatedContinuityProof))
  }

  /** The durable table, one transaction per call. */
  class KeyPinStore {
    var table: map<Address, Pin>

    constructor ()
      ensures table == map[]
    {
      table := map[];
    }

    function Get(address: Address): Option<Pin>
      reads this
    {
      if address in table then Some(table[address]) else None
    }

    method Observe(address: Address, anonymous: bool, key: Key, anchor: Option<Key>, observed: nat)
      returns (r: Result<Observation, ()>)
      modifies this
      ensures anonymous ==> r.Err? && table == old(table)
      ensures !anonymous ==> r.Ok? && Get(address) == After(old(Get(address)), ObserveInitial(key, anchor, observed))
      ensures forall other :: other != address ==> Get(other) == old(Get(other))
      ensures r.Ok? ==> match r.value
              case Established(pin) => Get(address) == Some(pin) && old(Get(address)) == None && anchor == None
              case Unchanged(effective) => table == old(table) && Resolve(Get(address), anchor) == Some(effective)
    {
      if anonymous { return Err(()); }
      var effective := Resolve(Get(address), anchor);
      if effective.Some? { return Ok(Unchanged(effective.value)); }
      var pin := Pin(key, None, None, observed, AuthorizedInitialObservation);
      table := table[address := pin];
      return Ok(Established(pin));
    }

    method AdvanceKey(address: Address, anonymous: bool, predecessor: Key, current: Key, anchor: Option<Key>,
                      observed: nat)
      returns (r: Result<Pin, ()>)
      modifies this
      ensures r.Err? ==> table == old(table)
      ensures r.Ok? <==> !anonymous && old(Resolve(Get(address), anchor)) == Some(predecessor)
      ensures r.Ok? ==>
        Get(address) == Some(r.value) == After(old(Get(address)), Advance(predecessor, current, anchor, observed))
      ensures forall other :: other != address ==> Get(other) == old(Get(other))
    {
      if anonymous { return Err(()); }
      var existing := Get(address);
      if Resolve(existing, anchor) != Some(predecessor) { return Err(()); }
      var kept := if anchor.Some? then anchor else if existing.Some? then existing.value.anchor else None;
      var pin := Pin(current, kept, Some(predecessor), observed, AuthenticatedContinuityProof);
      table := table[address := pin];
      return Ok(pin);
    }
  }

  // Whole runs on one address, under anchors that may change from call to call.

  function Run(events: seq<Event>): Option<Pin> {
    if events == [] then None
    else After(Run(events[..|events| - 1]), events[|events| - 1])
  }

  /** A successful advance, from predecessor to current. */
  type Link = (Key, Key)

  /** The successful advances of a run, in order. */
  function Links(events: seq<Event>): seq<Link> {
    if events == [] then []
    else
      var n := |events| - 1;
      Links(events[..n]) +
      (if events[n].Advance? && Writes(Run(events[..n]), events[n])
       then [(events[n].predecessor, events[n].current)] else [])
  }

  /** Keys established by successful initial observations. */
  function Seeds(events: seq<Event>): set<Key> {
    if events == [] then {}
    else
      var n := |events| - 1;
      Seeds(events[..n]) +
      (if events[n].ObserveInitial? && Writes(Run(events[..n]), events[n]) then {events[n].key} else {})
  }

  /** Each link starts where the one before it ended. */
  predicate Path(links: seq<Link>, from: Key, to: Key) {
    if links == [] then from == to
    else links[|links| - 1].1 == to && Path(links[..|links| - 1], from, links[|links| - 1].0)
  }

  /** The latest advances, all of them from some point on, lead from `from` to `to`. */
  ghost predicate Linked(links: seq<Link>, from: Key, to: Key) {
    exists k :: 0 <= k <= |links| && Path(links[k..], from, to)
  }

  lemma LinkedStep(links: seq<Link>, from: Key, mid: Key, to: Key)
    requires Linked(links, from, mid)
    ensures Linked(links + [(mid, to)], from, to)
  {
    var k :| 0 <= k <= |links| && Path(links[k..], from, mid);
    var more := links + [(mid, to)];
    assert more[k..] == links[k..] + [(mid, to)];
    assert more[k..][..|links| - k] == links[k..];
    assert Path(more[k..], from, to);
  }

  lemma LinkedSelf(links: seq<Link>, key: Key)
    ensures Linked(links, key, key)
  {
    assert links[|links|..] == [];
    assert Path(links[|links|..], key, key);
  }

  /** Where a pin's trust starts: its anchor, or the key first observed. */
  ghost predicate Rooted(events: seq<Event>, pin: Pin, root: Key) {
    if pin.anchor.Some? then root == pin.anchor.value else root in Seeds(events)
  }

  ghost predicate Chained(events: seq<Event>) {
    Run(events).Some? ==>
      exists root :: Rooted(events, Run(events).value, root) && Linked(Links(events), root, Run(events).value.current)
  }

  lemma AdvanceChained(before: seq<Event>, e: Event)
    requires e.Advance? && Writes(Run(before), e) && Chained(before)
    ensures Seeds(before + [e]) == Seeds(before) && Chained(before + [e])
  {
    var events := before + [e];
    assert events[..|before|] == before && events[|before|] == e;
    assert Links(events) == Links(before) + [(e.predecessor, e.current)];
    var pin := Run(events).value;
    if e.anchor.Some? && e.predecessor == e.anchor.value {
      LinkedSelf(Links(before), e.predecessor);
      LinkedStep(Links(before), e.predecessor, e.predecessor, e.current);
      assert Rooted(events, pin, e.predecessor);
    } else {
      var was := Run(before).value;
      assert was.current == e.predecessor && pin.anchor == was.anchor;
      var root :| Rooted(before, was, root) && Linked(Links(before), root, was.current);
      LinkedStep(Links(before), root, e.predecessor, e.current);
      assert Rooted(events, pin, root);
    }
  }

  lemma ObservationChained(before: seq<Event>, e: Event)
    requires e.ObserveInitial? && Writes(Run(before), e)
    ensures Run(before) == None && Seeds(before + [e]) == Seeds(before) + {e.key} && Chained(before + [e])
  {
    var events := before + [e];
    assert events[..|before|] == before && events[|before|] == e;
    LinkedSelf(Links(events), e.key);
    assert Rooted(events, Run(events).value, e.key);
  }

  lemma RefusalChained(before: seq<Event>, e: Event)
    requires !Writes(Run(before), e) && Chained(before)
    ensures Run(before + [e]) == Run(before) && Seeds(before + [e]) == Seeds(before) && Chained(before + [e])
  {
    var events := before + [e];
    assert events[..|before|] == before && events[|before|] == e;
    assert Links(events) == Links(before);
    if Run(before).Some? {
      var root :| Rooted(before, Run(before).value, root) && Linked(Links(before), root, Run(before).value.current);
      assert Rooted(events, Run(events).value, root);
    }
  }

  /**
   Every stored pin is chained to its anchor, or to the one key ever established, by the
   latest successful advances, one after another and none left out.
   */
  lemma {:induction false} PinsAreChained(events: seq<Event>)
    ensures |Seeds(events)| <= 1
    ensures Seeds(events) != {} ==> Run(events).Some?
    ensures Chained(events)
    decreases |events|
  {
    if events != [] {
      var n := |events| - 1;
      var before, e := events[..n], events[n];
      assert events == before + [e];
      PinsAreChained(before);
      if !Writes(Run(before), e) {
        RefusalChained(before, e);
      } else if e.ObserveInitial? {
        ObservationChained(before, e);
      } else {
        AdvanceChained(before, e);
      }
    }
  }

  /** An initial observation never changes an effective key that exists, under any anchor. */
  lemma ObservationKeepsEffectiveKeys(pin: Option<Pin>, key: Key, anchor: Option<Key>, observed: nat,
                                      under: Option<Key>)
    requires Resolve(pin, under).Some?
    ensures Resolve(After(pin, ObserveInitial(key, anchor, observed)), under) == Resolve(pin, under)
  {
  }

  /** A pin never disappears, and only an advance from its own effective key replaces it. */
  lemma OnlyAdvancesReplace(pin: Pin, e: Event)
    ensures After(Some(pin), e).Some?
    ensures After(Some(pin), e) != Some(pin) ==> e.Advance? && Resolve(Some(pin), e.anchor) == Some(e.predecessor)
  {
  }
}

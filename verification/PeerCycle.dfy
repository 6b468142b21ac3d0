/** The Boss and Hub reference check and the depth-first cycle check over configured peers. */
module PeerCycle {
  import opened Wrappers

  datatype Peer = Peer(boss: Option<string>, hub: Option<string>)

  type Peers = map<string, Peer>

  /** The references of one peer in the order the check follows them. */
  function Refs(peer: Peer): seq<string> {
    (if peer.boss.Some? then [peer.boss.value] else []) +
    (if peer.hub.Some? then [peer.hub.value] else [])
  }

  predicate AllDefined(peers: Peers) {
    forall n :: n in peers ==> forall r :: r in Refs(peers[n]) ==> r in peers
  }

  /** A walk along references. */
  predicate IsPath(peers: Peers, p: seq<string>) {
    && (forall k :: 0 <= k < |p| ==> p[k] in peers)
    && (forall k :: 0 <= k < |p| - 1 ==> p[k + 1] in Refs(peers[p[k]]))
  }

  ghost predicate IsCycle(peers: Peers, p: seq<string>) {
    |p| >= 2 && IsPath(peers, p) && p[0] == p[|p| - 1]
  }

  ghost predicate Cyclic(peers: Peers) {
    exists p :: IsCycle(peers, p)
  }

  /** Every peer in `order` refers only to peers before it. */
  ghost predicate Ordered(peers: Peers, order: seq<string>) {
    forall k :: 0 <= k < |order| ==>
      order[k] in peers && forall r :: r in Refs(peers[order[k]]) ==> r in order[..k]
  }

  ghost function Elements(s: seq<string>): set<string> {
    set x | x in s
  }

  /** Along a path inside an ordering, positions only go down. */
  lemma {:induction false} PathDescends(peers: Peers, order: seq<string>, p: seq<string>, at: nat)
    requires Ordered(peers, order) && IsPath(peers, p) && |p| >= 1
    requires at < |order| && order[at] == p[0]
    ensures forall k :: 0 < k < |p| ==> p[k] in order[..at]
    decreases |p|
  {
    if |p| > 1 {
      assert p[1] in Refs(peers[p[0]]);
      assert p[1] in order[..at];
      var j :| 0 <= j < at && order[j] == p[1];
      assert IsPath(peers, p[1..]) by {
        forall k | 0 <= k < |p[1..]| - 1 ensures p[1..][k + 1] in Refs(peers[p[1..][k]]) {
          assert p[k + 2] in Refs(peers[p[k + 1]]);
        }
      }
      PathDescends(peers, order, p[1..], j);
      forall k | 0 < k < |p| ensures p[k] in order[..at] {
        if k > 1 {
          assert p[k] == p[1..][k - 1] && p[1..][k - 1] in order[..j];
        }
      }
    }
  }

  /** The first position of a peer in an ordering. */
  ghost function FirstAt(order: seq<string>, x: string): (k: nat)
    requires x in order
    ensures k < |order| && order[k] == x && x !in order[..k]
  {
    if order[0] == x then 0 else 1 + FirstAt(order[1..], x)
  }

  /** A complete ordering leaves no room for a cycle. */
  lemma OrderedIsAcyclic(peers: Peers, order: seq<string>)
    requires Ordered(peers, order) && peers.Keys <= Elements(order)
    ensures !Cyclic(peers)
  {
    forall p | IsCycle(peers, p) ensures false {
      var at := FirstAt(order, p[0]);
      PathDescends(peers, order, p, at);
    }
  }

  /** A peer whose references are all finished may finish next. */
  lemma Finish(peers: Peers, order: seq<string>, name: string)
    requires Ordered(peers, order) && name in peers
    requires forall r :: r in Refs(peers[name]) ==> r in order
    ensures Ordered(peers, order + [name])
    ensures Elements(order + [name]) == Elements(order) + {name}
  {
    var longer := order + [name];
    forall k | 0 <= k < |longer|
      ensures longer[k] in peers && forall r :: r in Refs(peers[longer[k]]) ==> r in longer[..k]
    {
      if k < |order| {
        assert longer[..k] == order[..k];
        assert longer[k] == order[k];
      } else {
        assert longer[..k] == order;
      }
    }
  }

  /** One run of the check: the two sets it mutates, and the order in which peers finished. */
  class CycleCheck {
    const peers: Peers
    var active: set<string>
    var done: set<string>
    ghost var order: seq<string>

    constructor (peers: Peers)
      requires AllDefined(peers)
      ensures this.peers == peers && active == {} && Valid() && done == {}
    {
      this.peers := peers;
      active, done, order := {}, {}, [];
    }

    ghost predicate Valid()
      reads this
    {
      && AllDefined(peers) && Ordered(peers, order)
      && Elements(order) == done && done <= peers.Keys
      && active <= peers.Keys && active !! done
    }

    /** The peers being visited, outermost first, form a path into `name`. */
    ghost predicate Stack(stack: seq<string>, name: string)
      reads this
    {
      Elements(stack) == active && IsPath(peers, stack + [name])
    }

    /** Succeeds with `name` finished, or leaves a cycle as the reason. */
    method Visit(name: string, ghost stack: seq<string>) returns (ok: bool)
      requires Valid() && name in peers && Stack(stack, name)
      modifies this
      ensures ok ==> Valid() && active == old(active) && name in done && old(done) <= done
      ensures !ok ==> Cyclic(peers)
      decreases peers.Keys - active
    {
      if name in done { return true; }
      if name in active {
        ghost var j :| 0 <= j < |stack| && stack[j] == name;
        ghost var p := (stack + [name])[j..];
        assert IsCycle(peers, p);
        return false;
      }
      active := active + {name};
      ghost var inner := stack + [name];
      assert Elements(inner) == active;
      var refs := Refs(peers[name]);
      for i := 0 to |refs|
        invariant Valid() && active == old(active) + {name} && old(done) <= done && name !in done
        invariant forall r :: r in refs[..i] ==> r in done
      {
        assert Stack(inner, refs[i]);
        var fine := Visit(refs[i], inner);
        if !fine { return false; }
      }
      active := active - {name};
      done := done + {name};
      assert refs[..|refs|] == refs;
      assert forall r :: r in refs ==> r in Elements(order);
      Finish(peers, order, name);
      order := order + [name];
      return true;
    }
  }

  datatype Verdict = Accepted | UndefinedPeer(name: string) | RelationshipCycle

  /** The checks that close `parse_peers`: exactly the acyclic, fully defined tables pass. */
  method CheckPeers(peers: Peers) returns (verdict: Verdict)
    ensures verdict == Accepted <==> AllDefined(peers) && !Cyclic(peers)
    ensures verdict == RelationshipCycle <==> AllDefined(peers) && Cyclic(peers)
    ensures verdict.UndefinedPeer? ==>
      verdict.name !in peers && exists n :: n in peers && verdict.name in Refs(peers[n])
  {
    var left := peers.Keys;
    while left != {}
      invariant left <= peers.Keys
      invariant forall n :: n in peers && n !in left ==> forall r :: r in Refs(peers[n]) ==> r in peers
      decreases left
    {
      var name :| name in left;
      var refs := Refs(peers[name]);
      for i := 0 to |refs|
        invariant forall r :: r in refs[..i] ==> r in peers
      {
        if refs[i] !in peers { return UndefinedPeer(refs[i]); }
      }
      left := left - {name};
    }
    var check := new CycleCheck(peers);
    left := peers.Keys;
    while left != {}
      invariant check.peers == peers && check.Valid() && check.active == {}
      invariant left <= peers.Keys && peers.Keys - left <= check.done
      decreases left
    {
      var name :| name in left;
      var ok := check.Visit(name, []);
      if !ok { return RelationshipCycle; }
      left := left - {name};
    }
    OrderedIsAcyclic(peers, check.order);
    return Accepted;
  }

  /** Distinct entries of a list are no more than the set they come from. */
  lemma {:induction false} Pigeonhole(p: seq<string>, s: set<string>)
    requires forall x :: x in p ==> x in s
    requires forall i, j :: 0 <= i < j < |p| ==> p[i] != p[j]
    ensures |p| <= |s|
    decreases |p|
  {
    if p != [] {
      Pigeonhole(p[1..], s - {p[0]});
    }
  }

  /** Following Boss and Hub references from any peer of an accepted table ends. */
  lemma AcceptedWalksEnd(peers: Peers, p: seq<string>)
    requires !Cyclic(peers) && IsPath(peers, p)
    ensures |p| <= |peers|
  {
    forall i, j | 0 <= i < j < |p| ensures p[i] != p[j] {
      if p[i] == p[j] {
        assert IsCycle(peers, p[i..j + 1]);
      }
    }
    Pigeonhole(p, peers.Keys);
  }
}

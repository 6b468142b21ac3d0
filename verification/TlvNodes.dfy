/**
 The tree of `TlvTree` on the heap: linked nodes, their parents' lengths kept in 64-bit
 arithmetic, and the recursive writer. `Tree.Cells` reads the nodes off as values.
 */
module TlvNodes {
  import opened Wrappers
  import opened Integers
  import opened Wire
  import opened TlvTree
  import TlvLoops

  const TWO64: nat := MAX_U64 + 1

  class Node {
    const typeCode: nat
    var length: nat
    var value: Option<Bytes>
    var child: Node?
    var next: Node?
    var parent: Node?
    ghost const id: nat

    constructor (typeCode: nat, value: Option<Bytes>, parent: Node?, ghost id: nat)
      ensures this.typeCode == typeCode && this.value == value && this.parent == parent && this.id == id
      ensures child == null && next == null && length == if value.Some? then |value.value| else 0
    {
      this.typeCode, this.value, this.parent, this.id := typeCode, value, parent, id;
      child, next := null, null;
      length := if value.Some? then |value.value| else 0;
    }

    ghost function AsCell(): Cell
      reads this
    {
      Cell(typeCode, length, value, IdOf(child), IdOf(next), IdOf(parent))
    }
  }

  ghost function IdOf(node: Node?): Option<nat> {
    if node == null then None else Some(node.id)
  }

  ghost predicate Fits(cells: Cells) {
    forall i :: 0 <= i < |cells| ==> cells[i].length <= MAX_U64
  }

  /** When the whole growth fits 64 bits, so does its first step. */
  lemma GrowFits(cells: Cells, k: nat, len: nat)
    requires ParentsBefore(cells) && k < |cells| && Fits(Grow(cells, Some(k), len))
    ensures cells[k].length + len <= MAX_U64
  {
    GrowFirst(cells, k, len);
  }

  /** One step of `growParents` in 64-bit arithmetic: the new length, and what to carry upwards. */
  ghost function Bumped(cells: Cells, k: nat, add: nat): Cells
    requires k < |cells|
  {
    cells[k := cells[k].(length := (cells[k].length + add) % TWO64)]
  }

  ghost function Carried(cells: Cells, k: nat, add: nat): nat
    requires k < |cells|
  {
    (add + NumberLength((cells[k].length + add) % TWO64) - NumberLength(cells[k].length)) % TWO64
  }

  lemma SmallIsItself(n: nat)
    requires n <= MAX_U64
    ensures n % TWO64 == n
  {
  }

  /** `growParents` in 64-bit arithmetic. */
  ghost function GrowWrapped(cells: Cells, at: Option<nat>, add: nat): (r: Cells)
    requires ParentsBefore(cells) && (at.Some? ==> at.value < |cells|)
    ensures |r| == |cells|
    decreases if at.Some? then at.value + 1 else 0
  {
    if at.None? then cells
    else GrowWrapped(Bumped(cells, at.value, add), cells[at.value].parent, Carried(cells, at.value, add))
  }

  /** Where nothing overflows, the wrapped growth is the exact one. */
  lemma {:induction false} WrappedIsExact(cells: Cells, at: Option<nat>, add: nat)
    requires ParentsBefore(cells) && (at.Some? ==> at.value < |cells|) && Fits(Grow(cells, at, add))
    ensures GrowWrapped(cells, at, add) == Grow(cells, at, add)
    decreases if at.Some? then at.value + 1 else 0
  {
    if at.Some? {
      GrowOnce(cells, at.value, add);
      WrappedIsExact(Bumped(cells, at.value, add), cells[at.value].parent, Carried(cells, at.value, add));
    }
  }

  /** An add that is not refused, in 64-bit arithmetic. */
  ghost function AddWrapped(cells: Cells, at: nat, typeCode: nat, value: Option<Bytes>, child: bool): Cells
    requires at < |cells| && ParentsBefore(cells)
  {
    var attached := Attach(cells, at, typeCode, value, child);
    GrowWrapped(attached, attached[|cells|].parent, Size(attached[|cells|]))
  }

  lemma AddWrappedIsExact(cells: Cells, at: nat, typeCode: nat, value: Option<Bytes>, child: bool)
    requires at < |cells| && ParentsBefore(cells) && Add(cells, at, typeCode, value, child).Some?
    requires Fits(Add(cells, at, typeCode, value, child).value)
    ensures AddWrapped(cells, at, typeCode, value, child) == Add(cells, at, typeCode, value, child).value
  {
    var attached := Attach(cells, at, typeCode, value, child);
    AddGrows(cells, at, typeCode, value, child);
    WrappedIsExact(attached, attached[|cells|].parent, Size(attached[|cells|]));
  }

  /** Where nothing overflows, a 64-bit step is a step of the exact growth. */
  lemma GrowOnce(cells: Cells, k: nat, add: nat)
    requires ParentsBefore(cells) && k < |cells| && Fits(Grow(cells, Some(k), add))
    ensures Grow(Bumped(cells, k, add), cells[k].parent, Carried(cells, k, add)) == Grow(cells, Some(k), add)
  {
    var c := cells[k];
    var grown := c.(length := c.length + add);
    var goal := Grow(cells, Some(k), add);
    GrowFits(cells, k, add);
    SmallIsItself(c.length + add);
    LongerNumbers(c.length, c.length + add);
    var after := cells[k := grown];
    var exact := add + NumberLength(grown.length) - NumberLength(c.length);
    assert goal == Grow(after, c.parent, exact);
    assert Bumped(cells, k, add) == after;
    if c.parent.Some? {
      GrowFits(after, c.parent.value, exact);
      SmallIsItself(exact);
    }
  }

  class Tree {
    ghost var nodes: seq<Node>
    const root: Node

    ghost function Cells(): (r: Cells)
      reads this, nodes
      ensures |r| == |nodes|
    {
      seq(|nodes|, i requires 0 <= i < |nodes| reads this, nodes => nodes[i].AsCell())
    }

    /** A node of this tree stands at its own position. */
    ghost predicate Has(node: Node)
      reads this
    {
      node.id < |nodes| && nodes[node.id] == node
    }

    /** Links stay inside the tree. */
    ghost predicate Valid()
      reads this, nodes
    {
      && nodes != [] && nodes[0] == root
      && (forall i :: 0 <= i < |nodes| ==>
            && nodes[i].id == i
            && (nodes[i].parent != null ==> Has(nodes[i].parent))
            && (nodes[i].child != null ==> Has(nodes[i].child))
            && (nodes[i].next != null ==> Has(nodes[i].next)))
      && ParentsBefore(Cells()) && Forward(Cells())
    }

    constructor (typeCode: nat, value: Option<Bytes>)
      ensures Valid() && Cells() == Root(typeCode, value)
    {
      root := new Node(typeCode, value, null, 0);
      nodes := [root];
    }

    /** One ancestor grows; the result is how much its own parent must grow. */
    method Bump(node: Node, add: nat) returns (more: nat)
      requires Valid() && Has(node)
      modifies node`length
      ensures Valid()
      ensures node.id < |old(Cells())| && Cells() == Bumped(old(Cells()), node.id, add)
      ensures more == Carried(old(Cells()), node.id, add)
    {
      ghost var before: Cells, k := Cells(), node.id;
      assert nodes[k] == node && before[k] == node.AsCell();
      var oldplen := TlvLoops.LengthLen(node.length);
      node.length := (node.length + add) % TWO64;
      var newplen := TlvLoops.LengthLen(node.length);
      more := (add + newplen - oldplen) % TWO64;
      forall i | 0 <= i < |nodes| ensures Cells()[i] == Bumped(before, k, add)[i] {
        if i != k { assert nodes[i] != node; }
      }
    }

    /** `growParents`, on linked nodes. */
    method GrowParents(tlv: Node, len: nat)
      requires Valid() && Has(tlv) && (tlv.parent != null ==> Has(tlv.parent))
      modifies nodes`length
      ensures Valid()
      ensures Cells() == GrowWrapped(old(Cells()), old(IdOf(tlv.parent)), len)
    {
      var parent: Node?, add: nat := tlv.parent, len;
      while parent != null
        invariant Valid() && nodes == old(nodes)
        invariant parent != null ==> Has(parent)
        invariant GrowWrapped(Cells(), IdOf(parent), add) == GrowWrapped(old(Cells()), old(IdOf(tlv.parent)), len)
        decreases if parent == null then 0 else parent.id + 1
      {
        ghost var before: Cells, k := Cells(), parent.id;
        assert nodes[k] == parent && before[k] == parent.AsCell();
        add := Bump(parent, add);
        parent := parent.parent;
      }
    }

    /** `addRaw` as the first child of a node. */
    method AddChild(tlv: Node, typeCode: nat, value: Option<Bytes>) returns (added: Node)
      requires Valid() && Has(tlv) && tlv.child == null
      modifies this`nodes, tlv`child
      ensures fresh(added) && Valid() && nodes == old(nodes) + [added] && Has(added)
      ensures added.parent != null ==> Has(added.parent)
      ensures Cells() == Attach(old(Cells()), tlv.id, typeCode, value, true)
    {
      hide ParentsBefore, Forward;
      ghost var before: Cells := Cells();
      assert before[tlv.id] == tlv.AsCell();
      added := new Node(typeCode, value, tlv, |nodes|);
      tlv.child := added;
      nodes := nodes + [added];
      ghost var goal: Cells := Attach(before, tlv.id, typeCode, value, true);
      forall i | 0 <= i < |nodes| ensures nodes[i].AsCell() == goal[i] {
        if i < |before| && i != tlv.id {
          assert nodes[i] != tlv && nodes[i].AsCell() == before[i];
        }
      }
      assert Cells() == goal;
      AttachForward(before, tlv.id, typeCode, value, true);
    }

    /** `addRaw` as the next sibling of a node. */
    method AddNext(tlv: Node, typeCode: nat, value: Option<Bytes>) returns (added: Node)
      requires Valid() && Has(tlv) && tlv.next == null
      modifies this`nodes, tlv`next
      ensures fresh(added) && Valid() && nodes == old(nodes) + [added] && Has(added)
      ensures added.parent != null ==> Has(added.parent)
      ensures Cells() == Attach(old(Cells()), tlv.id, typeCode, value, false)
    {
      hide ParentsBefore, Forward;
      ghost var before: Cells := Cells();
      assert before[tlv.id] == tlv.AsCell();
      added := new Node(typeCode, value, tlv.parent, |nodes|);
      tlv.next := added;
      nodes := nodes + [added];
      ghost var goal: Cells := Attach(before, tlv.id, typeCode, value, false);
      forall i | 0 <= i < |nodes| ensures nodes[i].AsCell() == goal[i] {
        if i < |before| && i != tlv.id {
          assert nodes[i] != tlv && nodes[i].AsCell() == before[i];
        }
      }
      assert Cells() == goal;
      AttachForward(before, tlv.id, typeCode, value, false);
    }

    /** `tith_addData`, `tith_addNullData` and `tith_addContainer`: link, then grow the ancestors. */
    method Append(tlv: Node, typeCode: nat, value: Option<Bytes>, asChild: bool) returns (added: Node?)
      requires Valid() && Has(tlv)
      modifies this`nodes, tlv`child, tlv`next, nodes`length
      ensures Valid()
      ensures match Add(old(Cells()), tlv.id, typeCode, value, asChild)
              case None => added == null && Cells() == old(Cells())
              case Some(goal) =>
                && added != null
                && Cells() == AddWrapped(old(Cells()), tlv.id, typeCode, value, asChild)
                && (Fits(goal) ==> Cells() == goal)
    {
      ghost var before: Cells := Cells();
      assert before[tlv.id] == tlv.AsCell();
      if asChild {
        if tlv.child != null { return null; }
        added := AddChild(tlv, typeCode, value);
      } else {
        if tlv.next != null { return null; }
        added := AddNext(tlv, typeCode, value);
      }
      ghost var attached: Cells := Attach(before, tlv.id, typeCode, value, asChild);
      assert Cells() == attached && attached[|before|] == added.AsCell();
      GrowFor(added);
      if Fits(Add(before, tlv.id, typeCode, value, asChild).value) {
        AddWrappedIsExact(before, tlv.id, typeCode, value, asChild);
      }
    }

    /** The growth owed for the node just linked. */
    method GrowFor(added: Node)
      requires Valid() && Has(added) && (added.parent != null ==> Has(added.parent))
      requires added.length == if added.value.Some? then |added.value.value| else 0
      modifies nodes`length
      ensures Valid()
      ensures Cells() == GrowWrapped(old(Cells()), old(IdOf(added.parent)), old(Size(added.AsCell())))
    {
      hide NumberLength, ParentsBefore, Forward;
      var length := if added.value.Some? then |added.value.value| else 0;
      var typeBytes := TlvLoops.LengthLen(added.typeCode);
      var lengthBytes := TlvLoops.LengthLen(length);
      GrowParents(added, length + typeBytes + lengthBytes);
    }

    /** `sendTLV`: the bytes of a node and its later siblings, or a refusal. */
    method SendTlv(tlv: Node) returns (sent: Option<Bytes>)
      requires Valid() && Has(tlv)
      ensures tlv.id < |Cells()| && sent == Send(Cells(), tlv.id)
      decreases |nodes| - tlv.id
    {
      ghost var cells: Cells := Cells();
      assert nodes[tlv.id] == tlv && cells[tlv.id] == tlv.AsCell();
      var value := tlv.value;
      if value.Some? {
        if tlv.length > |value.value| { return None; }
        value := Some(value.value[..tlv.length]);
      } else {
        if tlv.child == null { return None; }
        value := SendTlv(tlv.child);
        if value.None? || |value.value| != tlv.length { return None; }
      }
      var one := EncodeNumber(tlv.typeCode) + EncodeNumber(tlv.length) + value.value;
      if tlv.next == null { return Some(one); }
      var rest := SendTlv(tlv.next);
      if rest.None? { return None; }
      return Some(one + rest.value);
    }

    /** `encodedSequenceLength`: the loop over siblings, refused past 64 bits. */
    method EncodedSequenceLength(first: Node) returns (total: Option<nat>)
      requires Valid() && Has(first)
      ensures first.id < |Cells()| && total == SequenceLength(Cells(), first.id, 0)
    {
      ghost var cells: Cells := Cells();
      var ret: nat, tlv: Node? := 0, first;
      while tlv != null
        invariant tlv != null ==> Has(tlv)
        invariant (if tlv == null then Some(ret) else SequenceLength(cells, tlv.id, ret))
               == SequenceLength(cells, first.id, 0)
        decreases if tlv == null then 0 else |nodes| - tlv.id
      {
        var overhead := Overhead(tlv);
        hide Size;
        if tlv.length > MAX_U64 - overhead || ret > MAX_U64 - overhead - tlv.length { return None; }
        ret := ret + overhead + tlv.length;
        tlv := tlv.next;
      }
      return Some(ret);
    }

    /** The bytes of a node's header. */
    method Overhead(tlv: Node) returns (overhead: nat)
      requires Valid() && Has(tlv)
      ensures tlv.id < |Cells()| && Cells()[tlv.id] == tlv.AsCell()
      ensures overhead + tlv.length == Size(Cells()[tlv.id])
    {
      assert nodes[tlv.id] == tlv;
      var typeBytes := TlvLoops.LengthLen(tlv.typeCode);
      var lengthBytes := TlvLoops.LengthLen(tlv.length);
      overhead := typeBytes + lengthBytes;
    }

    /** `tith_sendTLV`. */
    method SendWhole() returns (sent: Option<Bytes>)
      requires Valid()
      ensures sent == SendRoot(Cells())
    {
      sent := SendTlv(root);
      if sent.None? { return; }
      var expected := EncodedSequenceLength(root);
      if expected != Some(|sent.value|) { return None; }
    }
  }
}

/**
 The proof-of-concept's TLV tree: linked nodes whose cached lengths are kept up to
 date along the parent chain, and the writer that relies on them.

 `Cell` is a node seen as a value, links being positions in order of allocation.
 A node is always allocated after its parent and after its earlier siblings.
 */
module TlvTree {
  import opened Wrappers
  import opened Integers
  import opened Wire

  datatype Cell = Cell(typeCode: nat, length: nat, value: Option<Bytes>,
                       child: Option<nat>, next: Option<nat>, parent: Option<nat>)

  type Cells = seq<Cell>

  function Size(c: Cell): nat {
    NumberLength(c.typeCode) + NumberLength(c.length) + c.length
  }

  /** Encoded size of the nodes with this parent, from a position on. */
  function SizeUnder(cells: Cells, parent: Option<nat>, from: nat): nat
    decreases |cells| - from
  {
    if from >= |cells| then 0
    else (if cells[from].parent == parent then Size(cells[from]) else 0) + SizeUnder(cells, parent, from + 1)
  }

  /** No node with this parent between two positions. */
  ghost predicate NoneUnder(cells: Cells, parent: Option<nat>, lo: nat, hi: nat) {
    forall j :: lo <= j < hi && j < |cells| ==> cells[j].parent != parent
  }

  /** The links of one node lead where they should. */
  ghost predicate CellLinked(cells: Cells, i: nat)
    requires i < |cells|
  {
    var c := cells[i];
    && (c.parent.Some? ==> c.parent.value < i && cells[c.parent.value].value.None?)
    && (match c.child
        case None => NoneUnder(cells, Some(i), 0, |cells|)
        case Some(x) => i < x < |cells| && cells[x].parent == Some(i) && NoneUnder(cells, Some(i), 0, x))
    && (match c.next
        case None => NoneUnder(cells, c.parent, i + 1, |cells|)
        case Some(x) => i < x < |cells| && cells[x].parent == c.parent && NoneUnder(cells, c.parent, i + 1, x))
    && (c.value.Some? ==> |c.value.value| == c.length)
  }

  ghost predicate Linked(cells: Cells) {
    forall i :: 0 <= i < |cells| ==> CellLinked(cells, i)
  }

  /** Every container's cached length is the encoded size of its children, short by `missing` at `hole`. */
  ghost predicate ExactBut(cells: Cells, hole: Option<nat>, missing: int) {
    forall i: nat :: i < |cells| && cells[i].value.None? ==>
      cells[i].length + (if hole == Some(i) then missing else 0) == SizeUnder(cells, Some(i), 0)
  }

  ghost predicate Exact(cells: Cells) {
    ExactBut(cells, None, 0)
  }

  predicate ParentsBefore(cells: Cells) {
    forall i :: 0 <= i < |cells| && cells[i].parent.Some? ==> cells[i].parent.value < i
  }

  /** `growParents`: each ancestor grows by what its child grew, headers included. */
  function Grow(cells: Cells, at: Option<nat>, len: nat): (r: Cells)
    requires ParentsBefore(cells) && (at.Some? ==> at.value < |cells|)
    ensures |r| == |cells|
    decreases if at.Some? then at.value + 1 else 0
  {
    if at.None? then cells
    else
      var c := cells[at.value];
      var grown := c.(length := c.length + len);
      LongerNumbers(c.length, c.length + len);
      Grow(cells[at.value := grown], c.parent, len + NumberLength(grown.length) - NumberLength(c.length))
  }

  lemma {:induction false} LongerNumbers(a: nat, b: nat)
    requires a <= b
    ensures NumberLength(a) <= NumberLength(b)
    decreases b
  {
    if a >= 128 { LongerNumbers(a / 128, b / 128); }
  }

  /** `addRaw` and the growth that follows it; refused when the link is taken. */
  function Add(cells: Cells, at: nat, typeCode: nat, value: Option<Bytes>, child: bool): Option<Cells>
    requires at < |cells| && ParentsBefore(cells)
  {
    if (if child then cells[at].child else cells[at].next).Some? then None
    else
      var linked := Attach(cells, at, typeCode, value, child);
      var length := if value.Some? then |value.value| else 0;
      Some(Grow(linked, linked[|cells|].parent, length + NumberLength(typeCode) + NumberLength(length)))
  }

  /** An add that is not refused links the node, then grows its ancestors by the node's own size. */
  lemma AddGrows(cells: Cells, at: nat, typeCode: nat, value: Option<Bytes>, child: bool)
    requires at < |cells| && ParentsBefore(cells)
    requires (if child then cells[at].child else cells[at].next).None?
    ensures var attached := Attach(cells, at, typeCode, value, child);
      Add(cells, at, typeCode, value, child) == Some(Grow(attached, attached[|cells|].parent, Size(attached[|cells|])))
  {
  }

  function Attach(cells: Cells, at: nat, typeCode: nat, value: Option<Bytes>, child: bool): (r: Cells)
    requires at < |cells| && ParentsBefore(cells)
    ensures |r| == |cells| + 1 && ParentsBefore(r)
    ensures r[|cells|].parent == if child then Some(at) else cells[at].parent
  {
    var n := |cells|;
    var fresh' := Cell(typeCode, if value.Some? then |value.value| else 0, value, None, None,
                       if child then Some(at) else cells[at].parent);
    cells[at := if child then cells[at].(child := Some(n)) else cells[at].(next := Some(n))] + [fresh']
  }

  // Growing keeps every cached length exact.

  lemma {:induction false} SizeAfterUpdate(cells: Cells, k: nat, c: Cell, parent: Option<nat>, from: nat)
    requires k < |cells| && c.parent == cells[k].parent
    ensures SizeUnder(cells[k := c], parent, from) ==
      SizeUnder(cells, parent, from) + (if from <= k && cells[k].parent == parent then Size(c) - Size(cells[k]) else 0)
    decreases |cells| - from
  {
    if from < |cells| { SizeAfterUpdate(cells, k, c, parent, from + 1); }
  }

  lemma GrowStep(cells: Cells, k: nat, len: nat, grown: Cell)
    requires ParentsBefore(cells) && k < |cells| && cells[k].value.None?
    requires ExactBut(cells, Some(k), len) && grown == cells[k].(length := cells[k].length + len)
    ensures ExactBut(cells[k := grown], cells[k].parent,
                     len + NumberLength(grown.length) - NumberLength(cells[k].length))
  {
    var after := cells[k := grown];
    forall i: nat | i < |after| && after[i].value.None?
      ensures after[i].length
        + (if cells[k].parent == Some(i) then len + NumberLength(grown.length) - NumberLength(cells[k].length) else 0)
              == SizeUnder(after, Some(i), 0)
    {
      SizeAfterUpdate(cells, k, grown, Some(i), 0);
    }
  }

  /** Containers all the way up. */
  ghost predicate ContainersAbove(cells: Cells) {
    forall i :: 0 <= i < |cells| && cells[i].parent.Some? ==>
      cells[i].parent.value < |cells| && cells[cells[i].parent.value].value.None?
  }

  lemma {:induction false} GrowKeepsExact(cells: Cells, at: Option<nat>, len: nat)
    requires ParentsBefore(cells) && ContainersAbove(cells)
    requires at.Some? ==> at.value < |cells| && cells[at.value].value.None?
    requires ExactBut(cells, at, len)
    ensures Exact(Grow(cells, at, len))
    decreases if at.Some? then at.value + 1 else 0
  {
    if at.Some? {
      var k := at.value;
      var c := cells[k];
      var grown := c.(length := c.length + len);
      LongerNumbers(c.length, c.length + len);
      GrowStep(cells, k, len, grown);
      var after := cells[k := grown];
      assert ContainersAbove(after);
      GrowKeepsExact(after, c.parent, len + NumberLength(grown.length) - NumberLength(c.length));
    }
  }

  /** Growing changes lengths of containers only. */
  ghost predicate SameShape(a: Cells, b: Cells) {
    && |a| == |b|
    && forall i :: 0 <= i < |a| ==> a[i].(length := 0) == b[i].(length := 0) && (a[i].value.Some? ==> a[i] == b[i])
  }

  lemma {:induction false} GrowKeepsShape(cells: Cells, at: Option<nat>, len: nat)
    requires ParentsBefore(cells) && ContainersAbove(cells)
    requires at.Some? ==> at.value < |cells| && cells[at.value].value.None?
    ensures SameShape(cells, Grow(cells, at, len))
    decreases if at.Some? then at.value + 1 else 0
  {
    if at.Some? {
      var c := cells[at.value];
      var grown := c.(length := c.length + len);
      LongerNumbers(c.length, c.length + len);
      var after := cells[at.value := grown];
      assert ContainersAbove(after);
      GrowKeepsShape(after, c.parent, len + NumberLength(grown.length) - NumberLength(c.length));
    }
  }

  lemma ShapeKeepsLinks(a: Cells, b: Cells)
    requires Linked(a) && SameShape(a, b)
    ensures Linked(b)
  {
    forall i | 0 <= i < |b| ensures CellLinked(b, i) {
      assert CellLinked(a, i);
      assert forall j :: 0 <= j < |a| ==> a[j].parent == a[j].(length := 0).parent == b[j].parent;
      assert a[i].(length := 0) == b[i].(length := 0);
    }
  }

  // Adding keeps the links and the lengths.

  lemma {:induction false} SizeAfterAppend(cells: Cells, c: Cell, parent: Option<nat>, from: nat)
    requires from <= |cells|
    ensures SizeUnder(cells + [c], parent, from) ==
      SizeUnder(cells, parent, from) + (if c.parent == parent then Size(c) else 0)
    decreases |cells| - from
  {
    if from < |cells| {
      SizeAfterAppend(cells, c, parent, from + 1);
    } else {
      assert SizeUnder(cells + [c], parent, from + 1) == 0;
    }
  }

  lemma {:induction false} NoneIsZero(cells: Cells, parent: Option<nat>, lo: nat, hi: nat)
    requires lo <= hi <= |cells| && NoneUnder(cells, parent, lo, hi)
    ensures SizeUnder(cells, parent, lo) == SizeUnder(cells, parent, hi)
    decreases hi - lo
  {
    if lo < hi { NoneIsZero(cells, parent, lo + 1, hi); }
  }

  lemma AttachSizes(cells: Cells, at: nat, typeCode: nat, value: Option<Bytes>, child: bool)
    requires at < |cells| && ParentsBefore(cells) && Exact(cells)
    ensures var attached := Attach(cells, at, typeCode, value, child);
      ExactBut(attached, attached[|cells|].parent, Size(attached[|cells|]))
  {
    var n := |cells|;
    var attached := Attach(cells, at, typeCode, value, child);
    var relinked := attached[..n];
    assert attached == relinked + [attached[n]];
    assert relinked == cells[at := relinked[at]];
    forall i: nat | i < |attached| && attached[i].value.None?
      ensures attached[i].length + (if attached[n].parent == Some(i) then Size(attached[n]) else 0)
              == SizeUnder(attached, Some(i), 0)
    {
      SizeAfterAppend(relinked, attached[n], Some(i), 0);
      SizeAfterUpdate(cells, at, relinked[at], Some(i), 0);
      if i == n {
        NoneIsZero(cells, Some(i), 0, n);
      }
    }
  }

  ghost predicate CanAttach(cells: Cells, at: nat, child: bool) {
    && at < |cells| && ParentsBefore(cells) && Linked(cells)
    && (if child then cells[at].child else cells[at].next).None? && (child ==> cells[at].value.None?)
  }

  lemma AttachKeepsOthers(cells: Cells, at: nat, typeCode: nat, value: Option<Bytes>, child: bool, i: nat)
    requires CanAttach(cells, at, child) && i < |cells| && i != at
    ensures CellLinked(Attach(cells, at, typeCode, value, child), i)
  {
    var attached, n := Attach(cells, at, typeCode, value, child), |cells|;
    assert CellLinked(cells, at) && CellLinked(cells, i);
    assert forall j :: 0 <= j < n ==> attached[j].parent == cells[j].parent && attached[j].value == cells[j].value;
    assert cells[i].next.None? ==> attached[n].parent != cells[i].parent;
    assert cells[i].child.None? ==> attached[n].parent != Some(i);
  }

  lemma AttachLinksEnds(cells: Cells, at: nat, typeCode: nat, value: Option<Bytes>, child: bool)
    requires CanAttach(cells, at, child)
    ensures CellLinked(Attach(cells, at, typeCode, value, child), at)
    ensures CellLinked(Attach(cells, at, typeCode, value, child), |cells|)
  {
    var attached, n := Attach(cells, at, typeCode, value, child), |cells|;
    assert CellLinked(cells, at);
    assert forall j :: 0 <= j < n ==> attached[j].parent == cells[j].parent && attached[j].value == cells[j].value;
    if child {
      assert cells[at].next.None? ==> attached[n].parent != cells[at].parent;
    } else {
      assert cells[at].child.None? ==> attached[n].parent != Some(at);
    }
  }

  lemma AttachLinks(cells: Cells, at: nat, typeCode: nat, value: Option<Bytes>, child: bool)
    requires CanAttach(cells, at, child)
    ensures Linked(Attach(cells, at, typeCode, value, child))
  {
    AttachLinksEnds(cells, at, typeCode, value, child);
    forall i: nat | i < |cells| && i != at ensures CellLinked(Attach(cells, at, typeCode, value, child), i) {
      AttachKeepsOthers(cells, at, typeCode, value, child, i);
    }
  }

  /** A tree as the add calls build it. */
  ghost predicate Built(cells: Cells) {
    cells != [] && ParentsBefore(cells) && Forward(cells) && Linked(cells) && Exact(cells)
  }

  /** `tith_allocTLV`, `tith_allocDataTLV`. */
  function Root(typeCode: nat, value: Option<Bytes>): Cells {
    [Cell(typeCode, if value.Some? then |value.value| else 0, value, None, None, None)]
  }

  lemma RootBuilt(typeCode: nat, value: Option<Bytes>)
    ensures Built(Root(typeCode, value))
  {
  }

  lemma AttachForward(cells: Cells, at: nat, typeCode: nat, value: Option<Bytes>, child: bool)
    requires at < |cells| && ParentsBefore(cells) && Forward(cells)
    ensures Forward(Attach(cells, at, typeCode, value, child))
  {
  }

  lemma LinkedMeans(cells: Cells)
    requires Linked(cells)
    ensures ParentsBefore(cells) && Forward(cells) && ContainersAbove(cells)
  {
    forall i | 0 <= i < |cells|
      ensures cells[i].parent.Some? ==> cells[i].parent.value < i && cells[cells[i].parent.value].value.None?
      ensures cells[i].child.Some? ==> i < cells[i].child.value < |cells|
      ensures cells[i].next.Some? ==> i < cells[i].next.value < |cells|
    {
      assert CellLinked(cells, i);
    }
  }

  lemma GrowKeepsBuilt(cells: Cells, at: Option<nat>, len: nat)
    requires cells != [] && ParentsBefore(cells) && Linked(cells) && ExactBut(cells, at, len)
    requires at.Some? ==> at.value < |cells| && cells[at.value].value.None?
    ensures Built(Grow(cells, at, len))
  {
    LinkedMeans(cells);
    GrowKeepsExact(cells, at, len);
    GrowKeepsShape(cells, at, len);
    ShapeKeepsLinks(cells, Grow(cells, at, len));
    LinkedMeans(Grow(cells, at, len));
  }

  /** Every add leaves every cached length exact, however many ancestors' headers grew. */
  lemma AddKeepsBuilt(cells: Cells, at: nat, typeCode: nat, value: Option<Bytes>, child: bool)
    requires Built(cells) && at < |cells| && (child ==> cells[at].value.None?)
    requires Add(cells, at, typeCode, value, child).Some?
    ensures Built(Add(cells, at, typeCode, value, child).value)
  {
    var attached := Attach(cells, at, typeCode, value, child);
    assert attached != [] && ParentsBefore(attached) && Linked(attached) by {
      AttachLinks(cells, at, typeCode, value, child);
    }
    var parent, size := attached[|cells|].parent, Size(attached[|cells|]);
    assert ExactBut(attached, parent, size) by { AttachSizes(cells, at, typeCode, value, child); }
    assert parent.Some? ==> attached[parent.value].value.None? by { assert CellLinked(attached, |cells|); }
    AddGrows(cells, at, typeCode, value, child);
    GrowKeepsBuilt(attached, parent, size);
  }

  /** Growing never shortens and never relinks. */
  lemma {:induction false} GrowKeepsParts(cells: Cells, at: Option<nat>, len: nat, i: nat)
    requires ParentsBefore(cells) && (at.Some? ==> at.value < |cells|) && i < |cells|
    ensures Grow(cells, at, len)[i].(length := 0) == cells[i].(length := 0)
    ensures cells[i].length <= Grow(cells, at, len)[i].length
    decreases if at.Some? then at.value + 1 else 0
  {
    if at.Some? {
      var c := cells[at.value];
      var grown := c.(length := c.length + len);
      LongerNumbers(c.length, c.length + len);
      GrowKeepsParts(cells[at.value := grown], c.parent, len + NumberLength(grown.length) - NumberLength(c.length), i);
    }
  }

  lemma {:induction false} GrowLeavesLater(cells: Cells, at: Option<nat>, len: nat, i: nat)
    requires ParentsBefore(cells) && (at.Some? ==> at.value < |cells|) && i < |cells|
    requires at.Some? ==> at.value < i
    ensures Grow(cells, at, len)[i] == cells[i]
    decreases if at.Some? then at.value + 1 else 0
  {
    if at.Some? {
      var c := cells[at.value];
      var grown := c.(length := c.length + len);
      LongerNumbers(c.length, c.length + len);
      GrowLeavesLater(cells[at.value := grown], c.parent, len + NumberLength(grown.length) - NumberLength(c.length), i);
    }
  }

  /** The first ancestor grows by the whole length. */
  lemma GrowFirst(cells: Cells, k: nat, len: nat)
    requires ParentsBefore(cells) && k < |cells|
    ensures Grow(cells, Some(k), len)[k] == cells[k].(length := cells[k].length + len)
  {
    var c := cells[k];
    var grown := c.(length := c.length + len);
    LongerNumbers(c.length, c.length + len);
    GrowLeavesLater(cells[k := grown], c.parent, len + NumberLength(grown.length) - NumberLength(c.length), k);
  }

  /** Every data node has as many bytes as its length says, every container's children take up its length. */
  ghost predicate LengthsRight(cells: Cells) {
    forall i: nat :: i < |cells| ==>
      cells[i].length == if cells[i].value.Some? then |cells[i].value.value| else SizeUnder(cells, Some(i), 0)
  }

  /** A data node said to be longer than its bytes, so that sending it reads past its buffer. */
  predicate Overlong(cells: Cells, at: nat) {
    at < |cells| && cells[at].value.Some? && cells[at].length > |cells[at].value.value|
  }

  /**
   Nothing checks that a new child's parent is a container, and the lengths stay right
   exactly when it is: a data node's own length grows with its child.
   */
  lemma AddBuiltExactly(cells: Cells, at: nat, typeCode: nat, value: Option<Bytes>, child: bool)
    requires Built(cells) && at < |cells| && Add(cells, at, typeCode, value, child).Some?
    ensures var after := Add(cells, at, typeCode, value, child).value;
      && (LengthsRight(after) <==> !(child && cells[at].value.Some?))
      && (child && cells[at].value.Some? ==> Overlong(after, at))
      && (!(child && cells[at].value.Some?) ==> Built(after))
  {
    var after := Add(cells, at, typeCode, value, child).value;
    if child && cells[at].value.Some? {
      ChildOfDataOverlong(cells, at, typeCode, value);
    } else {
      AddKeepsBuilt(cells, at, typeCode, value, child);
      forall i: nat | i < |after| && after[i].value.Some? ensures after[i].length == |after[i].value.value| {
        assert CellLinked(after, i);
      }
    }
  }

  lemma ChildOfDataOverlong(cells: Cells, at: nat, typeCode: nat, value: Option<Bytes>)
    requires Built(cells) && at < |cells| && Add(cells, at, typeCode, value, true).Some? && cells[at].value.Some?
    ensures Overlong(Add(cells, at, typeCode, value, true).value, at)
  {
    var attached := Attach(cells, at, typeCode, value, true);
    assert CellLinked(cells, at);
    AddGrows(cells, at, typeCode, value, true);
    GrowFirst(attached, at, Size(attached[|cells|]));
  }

  /** A one-byte root of data given a one-byte child: three bytes more are said to follow than there are. */
  lemma SomeChildOverruns()
    ensures var after := Add(Root(1, Some("a")), 0, 2, Some("b"), true);
      after.Some? && after.value[0].length == 4 && after.value[0].value == Some("a")
  {
    var cells := Root(1, Some("a"));
    AddGrows(cells, 0, 2, Some("b"), true);
    GrowFirst(Attach(cells, 0, 2, Some("b"), true), 0, 3);
  }

  /** One call of the `tith_add` family. */
  datatype AddCall = AddCall(at: nat, typeCode: nat, value: Option<Bytes>, child: bool)

  /** Runs of adds: each call names a node that exists, and none is refused. */
  ghost predicate Accepted(cells: Cells, calls: seq<AddCall>)
    requires ParentsBefore(cells)
    decreases |calls|
  {
    calls == [] ||
    (var c := calls[0];
     && c.at < |cells|
     && (var after := Add(cells, c.at, c.typeCode, c.value, c.child);
         after.Some? && ParentsBefore(after.value) && Accepted(after.value, calls[1..])))
  }

  ghost function AddAll(cells: Cells, calls: seq<AddCall>): Cells
    requires ParentsBefore(cells) && Accepted(cells, calls)
    decreases |calls|
  {
    if calls == [] then cells
    else
      var c := calls[0];
      AddAll(Add(cells, c.at, c.typeCode, c.value, c.child).value, calls[1..])
  }

  /** Children go under containers only. */
  ghost predicate Proper(cells: Cells, calls: seq<AddCall>)
    requires ParentsBefore(cells) && Accepted(cells, calls)
    decreases |calls|
  {
    calls == [] ||
    (var c := calls[0];
     && (c.child ==> cells[c.at].value.None?)
     && Proper(Add(cells, c.at, c.typeCode, c.value, c.child).value, calls[1..]))
  }

  /** Every tree that a proper run of adds builds has exact lengths throughout. */
  lemma {:induction false} RunKeepsBuilt(cells: Cells, calls: seq<AddCall>)
    requires Built(cells) && Accepted(cells, calls) && Proper(cells, calls)
    ensures Built(AddAll(cells, calls))
    decreases |calls|
  {
    if calls != [] {
      var c := calls[0];
      AddKeepsBuilt(cells, c.at, c.typeCode, c.value, c.child);
      RunKeepsBuilt(Add(cells, c.at, c.typeCode, c.value, c.child).value, calls[1..]);
    }
  }

  // Sending.

  /**
   `sendTLV` from node `i` on: fails on an empty container and on a length that does not
   match, and has nothing to write for a length that runs past the node's own bytes.
   */
  function Send(cells: Cells, i: nat): Option<Bytes>
    requires i < |cells| && Forward(cells)
    decreases |cells| - i
  {
    var c := cells[i];
    var value :=
      if c.value.Some? then
        if c.length <= |c.value.value| then Some(c.value.value[..c.length]) else None
      else if c.child.None? then None
      else
        var sent := Send(cells, c.child.value);
        if sent.Some? && |sent.value| == c.length then sent else None;
    if value.None? then None
    else
      var one := EncodeNumber(c.typeCode) + EncodeNumber(c.length) + value.value;
      if c.next.None? then Some(one)
      else
        var rest := Send(cells, c.next.value);
        if rest.None? then None else Some(one + rest.value)
  }

  predicate Forward(cells: Cells) {
    forall i :: 0 <= i < |cells| ==>
      && (cells[i].child.Some? ==> i < cells[i].child.value < |cells|)
      && (cells[i].next.Some? ==> i < cells[i].next.value < |cells|)
  }

  /** What the tree means: the TLV at node `i`, and its later siblings. */
  function Level(cells: Cells, i: nat): seq<Tlv>
    requires i < |cells| && Forward(cells)
    decreases |cells| - i, 1
  {
    [Tlv(cells[i].typeCode, ValueOf(cells, i))] +
    if cells[i].next.Some? then Level(cells, cells[i].next.value) else []
  }

  function ValueOf(cells: Cells, i: nat): Bytes
    requires i < |cells| && Forward(cells)
    decreases |cells| - i, 0
  {
    if cells[i].value.Some? then cells[i].value.value
    else if cells[i].child.Some? then EncodeAll(Level(cells, cells[i].child.value))
    else []
  }

  ghost predicate NoEmptyContainer(cells: Cells) {
    forall i :: 0 <= i < |cells| && cells[i].value.None? ==> cells[i].child.Some?
  }

  /** The cached length is the length of the value. */
  lemma {:induction false} ValueLength(cells: Cells, i: nat)
    requires Built(cells) && i < |cells|
    ensures |ValueOf(cells, i)| == cells[i].length
    decreases |cells| - i, 0
  {
    assert CellLinked(cells, i);
    if cells[i].value.None? {
      if cells[i].child.Some? {
        LevelLength(cells, cells[i].child.value);
        NoneIsZero(cells, Some(i), 0, cells[i].child.value);
      } else {
        NoneIsZero(cells, Some(i), 0, |cells|);
      }
    }
  }

  lemma EncodedTlvSize(typeCode: nat, value: Bytes)
    ensures |EncodeTlv(Tlv(typeCode, value))| == NumberLength(typeCode) + NumberLength(|value|) + |value|
  {
    EncodedLength(typeCode);
    EncodedLength(|value|);
  }

  lemma LevelStep(cells: Cells, i: nat)
    requires i < |cells| && Forward(cells)
    ensures EncodeAll(Level(cells, i)) == EncodeTlv(Tlv(cells[i].typeCode, ValueOf(cells, i)))
      + (if cells[i].next.Some? then EncodeAll(Level(cells, cells[i].next.value)) else [])
  {
    EncodeAllStep(Tlv(cells[i].typeCode, ValueOf(cells, i)),
                  if cells[i].next.Some? then Level(cells, cells[i].next.value) else []);
  }

  /** A level's size is the sum its parent's length was cached from. */
  lemma {:induction false} LevelLength(cells: Cells, i: nat)
    requires Built(cells) && i < |cells|
    ensures |EncodeAll(Level(cells, i))| == SizeUnder(cells, cells[i].parent, i)
    decreases |cells| - i, 1
  {
    hide Level, ValueOf, EncodeAll, EncodeTlv, NumberLength, NoneUnder;
    var c := cells[i];
    assert CellLinked(cells, i);
    LevelStep(cells, i);
    ValueLength(cells, i);
    EncodedTlvSize(c.typeCode, ValueOf(cells, i));
    assert SizeUnder(cells, c.parent, i) == Size(c) + SizeUnder(cells, c.parent, i + 1);
    if c.next.Some? {
      NoneIsZero(cells, c.parent, i + 1, c.next.value);
      LevelLength(cells, c.next.value);
    } else {
      NoneIsZero(cells, c.parent, i + 1, |cells|);
    }
  }

  /** Sending never trips over a length: it writes exactly the encoding of the tree. */
  lemma {:induction false} SendWritesTree(cells: Cells, i: nat)
    requires Built(cells) && NoEmptyContainer(cells) && i < |cells|
    ensures Send(cells, i) == Some(EncodeAll(Level(cells, i)))
    decreases |cells| - i
  {
    var c := cells[i];
    ValueLength(cells, i);
    if c.value.None? {
      SendWritesTree(cells, c.child.value);
    } else {
      assert c.value.value[..c.length] == c.value.value;
    }
    LevelStep(cells, i);
    var me := EncodeTlv(Tlv(c.typeCode, ValueOf(cells, i)));
    assert me + [] == me;
    if c.next.Some? { SendWritesTree(cells, c.next.value); }
  }

  ghost predicate Types(cells: Cells) {
    forall i :: 0 <= i < |cells| ==> 1 <= cells[i].typeCode <= INT_MAX && cells[i].length <= MAX_U64
  }

  lemma {:induction false} LevelEncodable(cells: Cells, i: nat)
    requires Built(cells) && Types(cells) && i < |cells|
    ensures forall k :: 0 <= k < |Level(cells, i)| ==> Encodable(Level(cells, i)[k], INT_MAX)
    decreases |cells| - i
  {
    ValueLength(cells, i);
    if cells[i].next.Some? { LevelEncodable(cells, cells[i].next.value); }
  }

  /** The receiver's parse of a sent level, and of any container's value, gives back its types and values. */
  lemma ReceiverReadsTree(cells: Cells, i: nat)
    requires Built(cells) && NoEmptyContainer(cells) && Types(cells) && i < |cells|
    ensures Send(cells, i).Some? && ParseAll(Send(cells, i).value, INT_MAX) == Ok(Level(cells, i))
    ensures cells[i].child.Some? && cells[i].value.None? ==>
      ParseAll(ValueOf(cells, i), INT_MAX) == Ok(Level(cells, cells[i].child.value))
  {
    SendWritesTree(cells, i);
    LevelEncodable(cells, i);
    SequenceRoundTrip(Level(cells, i), INT_MAX);
    if cells[i].child.Some? && cells[i].value.None? {
      LevelEncodable(cells, cells[i].child.value);
      SequenceRoundTrip(Level(cells, cells[i].child.value), INT_MAX);
    }
  }

  // What cannot be sent, and how failure reaches the root.

  /** Sending node `j` goes on to node `i`. */
  predicate Precedes(cells: Cells, j: nat, i: nat) {
    j < i && j < |cells| && (cells[j].next == Some(i) || (cells[j].child == Some(i) && cells[j].value.None?))
  }

  ghost predicate ComeTo(cells: Cells, i: nat) {
    exists j: nat :: Precedes(cells, j, i)
  }

  /** Every node up to `last` but the root is come to from an earlier one. */
  ghost predicate Threaded(cells: Cells, last: nat) {
    forall i: nat :: 0 < i <= last ==> ComeTo(cells, i)
  }

  lemma {:induction false} FailureSpreads(cells: Cells, i: nat)
    requires Forward(cells) && i < |cells| && Threaded(cells, i) && Send(cells, i) == None
    ensures Send(cells, 0) == None
    decreases i
  {
    if i > 0 {
      assert ComeTo(cells, i);
      var j: nat :| Precedes(cells, j, i);
      FailureSpreads(cells, j);
    }
  }

  /** The nearest earlier node with the same parent. */
  lemma {:induction false} EarlierSibling(cells: Cells, parent: Option<nat>, hi: nat) returns (j: Option<nat>)
    requires hi <= |cells|
    ensures j.None? ==> NoneUnder(cells, parent, 0, hi)
    ensures j.Some? ==> j.value < hi && cells[j.value].parent == parent && NoneUnder(cells, parent, j.value + 1, hi)
  {
    if hi == 0 {
      j := None;
    } else if cells[hi - 1].parent == parent {
      j := Some(hi - 1);
    } else {
      j := EarlierSibling(cells, parent, hi - 1);
    }
  }

  /** A node comes after its nearest earlier sibling, or else after its parent. */
  lemma BuiltComeTo(cells: Cells, i: nat)
    requires Built(cells) && 0 < i < |cells|
    ensures ComeTo(cells, i)
  {
    var parent := cells[i].parent;
    var j := EarlierSibling(cells, parent, i);
    assert CellLinked(cells, i);
    if j.Some? {
      assert CellLinked(cells, j.value);
      assert Precedes(cells, j.value, i);
    } else {
      assert parent.Some? by { assert cells[0].parent.None?; }
      assert CellLinked(cells, parent.value);
      assert Precedes(cells, parent.value, i);
    }
  }

  lemma BuiltThreaded(cells: Cells, last: nat)
    requires Built(cells) && last < |cells|
    ensures Threaded(cells, last)
  {
    hide Built, ComeTo;
    forall i: nat | 0 < i <= last ensures ComeTo(cells, i) { BuiltComeTo(cells, i); }
  }

  /** A built tree is sent exactly when no container in it is empty, wherever that may be. */
  lemma SendExactly(cells: Cells)
    requires Built(cells)
    ensures Send(cells, 0).Some? <==> NoEmptyContainer(cells)
  {
    if NoEmptyContainer(cells) {
      SendWritesTree(cells, 0);
    } else {
      var i: nat :| i < |cells| && cells[i].value.None? && cells[i].child.None?;
      BuiltThreaded(cells, i);
      FailureSpreads(cells, i);
    }
  }

  /** `encodedSequenceLength`, from node `i` on with `ret` counted so far; refused past 64 bits. */
  function SequenceLength(cells: Cells, i: nat, ret: nat): Option<nat>
    requires i < |cells| && Forward(cells)
    decreases |cells| - i
  {
    var total := ret + Size(cells[i]);
    if total > MAX_U64 then None
    else if cells[i].next.None? then Some(total)
    else SequenceLength(cells, cells[i].next.value, total)
  }

  /** `tith_sendTLV`: what was sent, checked against the lengths at the root. */
  function SendRoot(cells: Cells): Option<Bytes>
    requires cells != [] && Forward(cells)
  {
    var sent, expected := Send(cells, 0), SequenceLength(cells, 0, 0);
    if sent.Some? && expected == Some(|sent.value|) then sent else None
  }

  lemma {:induction false} SequenceLengthIs(cells: Cells, i: nat, ret: nat)
    requires Built(cells) && i < |cells|
    ensures var total := ret + |EncodeAll(Level(cells, i))|;
      SequenceLength(cells, i, ret) == if total > MAX_U64 then None else Some(total)
    decreases |cells| - i
  {
    hide Level, ValueOf, EncodeAll, EncodeTlv, NumberLength;
    LevelStep(cells, i);
    ValueLength(cells, i);
    EncodedTlvSize(cells[i].typeCode, ValueOf(cells, i));
    if cells[i].next.Some? { SequenceLengthIs(cells, cells[i].next.value, ret + Size(cells[i])); }
  }

  /** The comparison at the root never finds a difference: all that can fail is an empty container or the 64 bits. */
  lemma SendRootExactly(cells: Cells)
    requires Built(cells)
    ensures SendRoot(cells).Some? <==> NoEmptyContainer(cells) && |EncodeAll(Level(cells, 0))| <= MAX_U64
    ensures SendRoot(cells).Some? ==> SendRoot(cells).value == EncodeAll(Level(cells, 0))
  {
    SendExactly(cells);
    SequenceLengthIs(cells, 0, 0);
    if NoEmptyContainer(cells) { SendWritesTree(cells, 0); }
  }

  // A tree with a child under data is never sent again.

  /** The damage, and the way from the root to it. */
  ghost predicate Damaged(cells: Cells, at: nat) {
    ParentsBefore(cells) && Forward(cells) && Overlong(cells, at) && Threaded(cells, at)
  }

  lemma PrecedesStill(a: Cells, b: Cells, j: nat, i: nat)
    requires Precedes(a, j, i) && j < |b|
    requires b[j].value == a[j].value
    requires (a[j].next.Some? ==> b[j].next == a[j].next) && (a[j].child.Some? ==> b[j].child == a[j].child)
    ensures Precedes(b, j, i)
  {
  }

  /** An add links only what was unlinked. */
  lemma AddKeepsLinks(cells: Cells, at: nat, typeCode: nat, value: Option<Bytes>, child: bool, j: nat)
    requires at < |cells| && ParentsBefore(cells) && Forward(cells) && j < |cells|
    requires Add(cells, at, typeCode, value, child).Some?
    ensures var after := Add(cells, at, typeCode, value, child).value;
      && |after| == |cells| + 1 && after[j].value == cells[j].value && cells[j].length <= after[j].length
      && (cells[j].next.Some? ==> after[j].next == cells[j].next)
      && (cells[j].child.Some? ==> after[j].child == cells[j].child)
  {
    var attached := Attach(cells, at, typeCode, value, child);
    AddGrows(cells, at, typeCode, value, child);
    GrowKeepsParts(attached, attached[|cells|].parent, Size(attached[|cells|]), j);
    var grown := Grow(attached, attached[|cells|].parent, Size(attached[|cells|]));
    assert grown[j].(length := 0) == attached[j].(length := 0);
  }

  lemma AddKeepsForward(cells: Cells, at: nat, typeCode: nat, value: Option<Bytes>, child: bool)
    requires at < |cells| && ParentsBefore(cells) && Forward(cells)
    requires Add(cells, at, typeCode, value, child).Some?
    ensures ParentsBefore(Add(cells, at, typeCode, value, child).value)
    ensures Forward(Add(cells, at, typeCode, value, child).value)
  {
    var attached := Attach(cells, at, typeCode, value, child);
    var parent, size := attached[|cells|].parent, Size(attached[|cells|]);
    AddGrows(cells, at, typeCode, value, child);
    AttachForward(cells, at, typeCode, value, child);
    var after := Grow(attached, parent, size);
    forall i: nat | i < |after| ensures after[i].(length := 0) == attached[i].(length := 0) {
      GrowKeepsParts(attached, parent, size, i);
    }
    assert forall i :: 0 <= i < |after| ==>
      && after[i].parent == after[i].(length := 0).parent && attached[i].parent == attached[i].(length := 0).parent
      && after[i].child == after[i].(length := 0).child && attached[i].child == attached[i].(length := 0).child
      && after[i].next == after[i].(length := 0).next && attached[i].next == attached[i].(length := 0).next;
  }

  lemma ThreadedStill(cells: Cells, at: nat, typeCode: nat, value: Option<Bytes>, child: bool, last: nat)
    requires at < |cells| && ParentsBefore(cells) && Forward(cells) && Threaded(cells, last)
    requires Add(cells, at, typeCode, value, child).Some?
    ensures Threaded(Add(cells, at, typeCode, value, child).value, last)
  {
    var after := Add(cells, at, typeCode, value, child).value;
    forall i: nat | 0 < i <= last ensures ComeTo(after, i) {
      assert ComeTo(cells, i);
      var j: nat :| Precedes(cells, j, i);
      AddKeepsLinks(cells, at, typeCode, value, child, j);
      PrecedesStill(cells, after, j, i);
    }
  }

  lemma AddKeepsDamage(cells: Cells, at: nat, typeCode: nat, value: Option<Bytes>, child: bool, damage: nat)
    requires Damaged(cells, damage) && at < |cells| && Add(cells, at, typeCode, value, child).Some?
    ensures Damaged(Add(cells, at, typeCode, value, child).value, damage)
  {
    AddKeepsForward(cells, at, typeCode, value, child);
    ThreadedStill(cells, at, typeCode, value, child, damage);
    AddKeepsLinks(cells, at, typeCode, value, child, damage);
  }

  lemma {:induction false} RunKeepsDamage(cells: Cells, calls: seq<AddCall>, damage: nat)
    requires Damaged(cells, damage) && Accepted(cells, calls)
    ensures Damaged(AddAll(cells, calls), damage)
    decreases |calls|
  {
    if calls != [] {
      hide Damaged;
      var c := calls[0];
      AddKeepsDamage(cells, c.at, c.typeCode, c.value, c.child, damage);
      RunKeepsDamage(Add(cells, c.at, c.typeCode, c.value, c.child).value, calls[1..], damage);
    }
  }

  /** The first child hung under data leaves damage that no later add repairs. */
  lemma {:induction false} ImproperDamages(cells: Cells, calls: seq<AddCall>) returns (damage: nat)
    requires Built(cells) && Accepted(cells, calls) && !Proper(cells, calls)
    ensures Damaged(AddAll(cells, calls), damage)
    decreases |calls|
  {
    var c := calls[0];
    var after := Add(cells, c.at, c.typeCode, c.value, c.child).value;
    if c.child && cells[c.at].value.Some? {
      damage := c.at;
      ChildOfDataOverlong(cells, c.at, c.typeCode, c.value);
      AddKeepsForward(cells, c.at, c.typeCode, c.value, c.child);
      BuiltThreaded(cells, c.at);
      ThreadedStill(cells, c.at, c.typeCode, c.value, c.child, c.at);
      RunKeepsDamage(after, calls[1..], damage);
    } else {
      AddKeepsBuilt(cells, c.at, c.typeCode, c.value, c.child);
      damage := ImproperDamages(after, calls[1..]);
    }
  }

  /**
   Every tree that any accepted run of adds makes from a root: it is sent exactly when
   children went under containers only, no container was left empty, and the whole fits
   64 bits; and then the bytes are the tree's encoding.
   */
  lemma RunsAreSentExactly(typeCode: nat, value: Option<Bytes>, calls: seq<AddCall>)
    requires Accepted(Root(typeCode, value), calls)
    ensures var cells := AddAll(Root(typeCode, value), calls);
      && cells != [] && Forward(cells)
      && (SendRoot(cells).Some? <==>
            && Proper(Root(typeCode, value), calls) && NoEmptyContainer(cells)
            && |EncodeAll(Level(cells, 0))| <= MAX_U64)
      && (SendRoot(cells).Some? ==> SendRoot(cells).value == EncodeAll(Level(cells, 0)))
  {
    RootBuilt(typeCode, value);
    if Proper(Root(typeCode, value), calls) {
      RunKeepsBuilt(Root(typeCode, value), calls);
      SendRootExactly(AddAll(Root(typeCode, value), calls));
    } else {
      var damage := ImproperDamages(Root(typeCode, value), calls);
      FailureSpreads(AddAll(Root(typeCode, value), calls), damage);
    }
  }

  /** The receiver's parse of what such a run sends gives back the tree's top level. */
  lemma SentRunIsRead(typeCode: nat, value: Option<Bytes>, calls: seq<AddCall>)
    requires Accepted(Root(typeCode, value), calls)
    requires var cells := AddAll(Root(typeCode, value), calls);
      Forward(cells) && cells != [] && SendRoot(cells).Some? && Types(cells)
    ensures var cells := AddAll(Root(typeCode, value), calls);
      ParseAll(SendRoot(cells).value, INT_MAX) == Ok(Level(cells, 0))
  {
    RunsAreSentExactly(typeCode, value, calls);
    RootBuilt(typeCode, value);
    RunKeepsBuilt(Root(typeCode, value), calls);
    ReceiverReadsTree(AddAll(Root(typeCode, value), calls), 0);
  }
}

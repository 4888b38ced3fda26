/**
 * Properties of the list model that relate several operations: the growth
 * sequence from list_init, copy idempotence, append and insert undone by
 * remove, the getters reading back what was stored, the integer forms of
 * the source's floating point arithmetic, and the inputs on which the
 * as-written routines differ from what their names promise.
 */
module ListFacts {
  import opened Wrappers
  import opened TaggedList
  import opened ListLoops

  // ---------------------------------------------------------------------------
  // Growth

  /** The list after transferring `ns` into a fresh list one append at a time. */
  function AppendAll(ns: seq<Node>): ListValue
  {
    if |ns| == 0 then Init()
    else
      var prior := AppendAll(ns[..|ns| - 1]);
      if Valid(prior) then ListAppendPointer(prior, ns[|ns| - 1].kind, ns[|ns| - 1].size, ns[|ns| - 1].data).list
      else prior
  }

  /** Appending n nodes to a fresh list keeps them in order and leaves CapacityAfterAppends(n) slots. */
  lemma {:induction false} AppendAllShape(ns: seq<Node>)
    ensures AppendAll(ns).nodes == ns
    ensures AppendAll(ns).capacity == CapacityAfterAppends(|ns|)
    ensures Roomy(AppendAll(ns))
  {
    if |ns| > 0 {
      var init := ns[..|ns| - 1];
      AppendAllShape(init);
      assert init + [ns[|ns| - 1]] == ns;
    }
  }

  /** After n appends to a fresh list, list_get_length answers n and list_get_size answers CapacityAfterAppends(n). */
  lemma {:induction false} GettersAfterAppends(ns: seq<Node>)
    ensures Valid(AppendAll(ns))
    ensures GetLength(AppendAll(ns)) == |ns|
    ensures GetCapacity(AppendAll(ns)) == CapacityAfterAppends(|ns|)
  {
    AppendAllShape(ns);
  }

  /** list_init answers length 0 and 8 slots; each append adds one to the length and grows the slots by NewSize when full. */
  lemma GettersAfterAppend(l: ListValue, kind: Kind, size: nat, data: Payload)
    requires Valid(l)
    ensures GetLength(Init()) == 0 && GetCapacity(Init()) == MinimumSize
    ensures var r := ListAppendPointer(l, kind, size, data).list;
            && Valid(r)
            && GetLength(r) == GetLength(l) + 1
            && GetCapacity(r) == if GetLength(l) + 1 >= GetCapacity(l) then NewSize(GetCapacity(l)) else GetCapacity(l)
  {
  }

  /** Removing a live node takes one from list_get_length; a bad index changes neither getter. */
  lemma GettersAfterRemove(l: ListValue, pos: nat)
    requires Valid(l)
    ensures Valid(ListRemove(l, pos))
    ensures pos < GetLength(l) ==> GetLength(ListRemove(l, pos)) == GetLength(l) - 1
    ensures pos >= GetLength(l) ==>
              GetLength(ListRemove(l, pos)) == GetLength(l) && GetCapacity(ListRemove(l, pos)) == GetCapacity(l)
  {
  }

  /** From list_init, the 8th append grows 8 slots to 12 and the 12th grows 12 to 18. */
  lemma GrowthVectors()
    ensures CapacityAfterAppends(7) == 8
    ensures CapacityAfterAppends(8) == 12
    ensures CapacityAfterAppends(11) == 12
    ensures CapacityAfterAppends(12) == 18
    ensures CapacityAfterAppends(17) == 18
    ensures CapacityAfterAppends(18) == 27
  {
  }

  /** calculate_new_size computes (base * 1.5) in double and truncates; the integer form agrees. */
  lemma GrowthIsTruncatedProduct(s: nat)
    ensures ((GrowthBase(s) as real) * 1.5).Floor == NewSize(s)
  {
    var b := GrowthBase(s);
    var q := b / 2;
    if b % 2 == 0 {
      assert b == 2 * q;
      assert b * 3 / 2 == 3 * q;
      assert (b as real) * 1.5 == (3 * q) as real;
    } else {
      assert b == 2 * q + 1;
      assert b * 3 / 2 == 3 * q + 1;
      assert (b as real) * 1.5 == (3 * q + 1) as real + 0.5;
    }
  }

  /** The shrink trigger `length / size <= 0.25` is `4 * length <= size`. */
  lemma ShrinkTriggerIsLoadBound(capacity: nat, length: nat)
    requires 0 < capacity
    ensures (length as real) / (capacity as real) <= 0.25 <==> 4 * length <= capacity
  {
    var q := (length as real) / (capacity as real);
    assert q * (capacity as real) == length as real;
    if q <= 0.25 {
      assert (length as real) <= 0.25 * (capacity as real);
    } else {
      assert (length as real) > 0.25 * (capacity as real);
    }
  }

  /** The shrink target `size - (size - length) * 0.5`, truncated, is ShrinkTarget. */
  lemma ShrinkTargetIsTruncatedDifference(capacity: nat, length: nat)
    requires length <= capacity
    ensures ((capacity as real) - ((capacity - length) as real) * 0.5).Floor == ShrinkTarget(capacity, length)
  {
    var x := (capacity as real) - ((capacity - length) as real) * 0.5;
    if (capacity + length) % 2 == 0 {
      assert x == ((capacity + length) / 2) as real;
    } else {
      assert x == ((capacity + length) / 2) as real + 0.5;
    }
  }

  /** A shrink never leaves fewer slots than length + 1, whatever the load. */
  lemma ShrinkKeepsAFreeSlot(capacity: nat, length: nat)
    requires MinimumSize <= capacity && 4 * length <= capacity
    ensures length < ShrinkTarget(capacity, length) < capacity
  {
  }

  // ---------------------------------------------------------------------------
  // Copy

  /** A node already in copied shape is copied to itself. */
  lemma {:induction false} NormalNodeCopiesToItself(n: Node)
    requires NormalNode(n)
    ensures Copyable(n.kind, n.size, n.data) && Intact(n.kind, n.data)
    ensures NodeInit(n.kind, n.size, n.data) == Some(n)
    decreases n.data, 2
  {
    if n.kind.List? {
      NormalListCopiesToItself(n.data.list);
    } else if IsBlobKind(n.kind) {
      assert n.data.bytes[..n.size] == n.data.bytes;
    }
  }

  /** A list already in copied shape is copied to itself. */
  lemma {:induction false} NormalListCopiesToItself(l: ListValue)
    requires Normal(l)
    ensures DeepCopyable(l) && DeepIntact(l)
    ensures ListCopy(l) == Some(l)
    decreases Nested(l), 1
  {
    NormalPrefixCopiesToItself(l, 0);
    assert l.nodes[..0] == [];
  }

  lemma {:induction false} NormalPrefixCopiesToItself(l: ListValue, i: nat)
    requires Normal(l) && i <= |l.nodes|
    ensures DeepCopyable(l) && DeepIntact(l)
    ensures Normal(ListValue(l.nodes[..i], CapacityAfterAppends(i)))
    ensures forall j :: 0 <= j < |l.nodes| ==> NodeCopyOf(l.nodes[j], l.nodes[j])
    ensures CopyFrom(l, i, ListValue(l.nodes[..i], CapacityAfterAppends(i))) == Some(l)
    decreases Nested(l), 0, |l.nodes| - i
  {
    forall j | 0 <= j < |l.nodes|
      ensures Copyable(l.nodes[j].kind, l.nodes[j].size, l.nodes[j].data)
      ensures Intact(l.nodes[j].kind, l.nodes[j].data)
      ensures NodeCopyOf(l.nodes[j], l.nodes[j])
    {
      NormalNodeCopiesToItself(l.nodes[j]);
    }
    var acc := ListValue(l.nodes[..i], CapacityAfterAppends(i));
    if i == |l.nodes| {
      assert l.nodes[..i] == l.nodes;
    } else {
      var n := l.nodes[i];
      NormalNodeCopiesToItself(n);
      var u := ListAppend(acc, n.kind, n.size, n.data);
      assert u == AppendNode(acc, Some(n));
      assert l.nodes[..i] + [n] == l.nodes[..i + 1];
      assert u.list == ListValue(l.nodes[..i + 1], CapacityAfterAppends(i + 1));
      NormalPrefixCopiesToItself(l, i + 1);
    }
  }

  /** list_copy is idempotent: copying a copy yields the copy again. */
  lemma CopyIsIdempotent(l: ListValue)
    requires DeepCopyable(l)
    ensures ListCopy(l).Some? ==> DeepCopyable(ListCopy(l).value) && ListCopy(ListCopy(l).value) == ListCopy(l)
  {
    if ListCopy(l).Some? {
      NormalListCopiesToItself(ListCopy(l).value);
    }
  }

  /** For a value already in copied shape, the copying and the transferring append give the same list. */
  lemma CopyAgreesWithTransfer(l: ListValue, kind: Kind, size: nat, data: Payload)
    requires Valid(l) && NormalNode(Node(kind, size, data))
    ensures Copyable(kind, size, data)
    ensures ListAppend(l, kind, size, data) == ListAppendPointer(l, kind, size, data)
  {
    NormalNodeCopiesToItself(Node(kind, size, data));
  }

  // ---------------------------------------------------------------------------
  // Round trips

  /** A blob appended by copy reads back as its first `size` bytes, with its kind and size, at the old length. */
  lemma AppendThenGet(l: ListValue, kind: Kind, size: nat, bytes: seq<byte>)
    requires Valid(l) && IsBlobKind(kind) && size <= |bytes|
    ensures Copyable(kind, size, Bytes(bytes))
    ensures var u := ListAppend(l, kind, size, Bytes(bytes));
            && u.ok
            && GetPayload(u.list, |l.nodes|, kind) == Some(Bytes(bytes[..size]))
            && GetType(u.list, |l.nodes|) == kind
            && GetItemSize(u.list, |l.nodes|) == size
  {
  }

  /** A blob written by list_replace reads back at its position; every other position reads as before. */
  lemma ReplaceThenGet(l: ListValue, pos: nat, kind: Kind, size: nat, bytes: seq<byte>)
    requires Valid(l) && pos < |l.nodes| && IsBlobKind(kind) && size <= |bytes|
    ensures Copyable(kind, size, Bytes(bytes))
    ensures var u := ListReplace(l, pos, kind, size, Bytes(bytes));
            && u.ok
            && GetPayload(u.list, pos, kind) == Some(Bytes(bytes[..size]))
            && GetType(u.list, pos) == kind
            && GetItemSize(u.list, pos) == size
            && forall i :: 0 <= i < |l.nodes| && i != pos ==> GetPayload(u.list, i, kind) == GetPayload(l, i, kind)
  {
  }

  /** Every blob of a copied list reads back as the first `size` bytes of the original's. */
  lemma CopyThenGet(l: ListValue, pos: nat)
    requires DeepCopyable(l) && DeepIntact(l) && pos < |l.nodes| && IsBlobKind(l.nodes[pos].kind)
    ensures ListCopy(l).Some?
    ensures l.nodes[pos].data.Bytes? && l.nodes[pos].size <= |l.nodes[pos].data.bytes|
    ensures var c := ListCopy(l).value;
            && GetType(c, pos) == l.nodes[pos].kind
            && GetItemSize(c, pos) == l.nodes[pos].size
            && GetPayload(c, pos, l.nodes[pos].kind) == Some(Bytes(l.nodes[pos].data.bytes[..l.nodes[pos].size]))
  {
    assert Copyable(l.nodes[pos].kind, l.nodes[pos].size, l.nodes[pos].data);
    assert NodeCopyOf(l.nodes[pos], ListCopy(l).value.nodes[pos]);
  }

  /** The typed getters answer the same whatever kind they expect. */
  lemma GetIgnoresExpectedKind(l: ListValue, pos: nat, expected: Kind, other: Kind)
    ensures GetPayload(l, pos, expected) == GetPayload(l, pos, other)
  {
  }

  /** Removing the node an append placed gives back the original nodes. */
  lemma AppendThenRemove(l: ListValue, kind: Kind, size: nat, data: Payload)
    requires Valid(l)
    ensures ListRemove(ListAppendPointer(l, kind, size, data).list, |l.nodes|).nodes == l.nodes
  {
    var u := ListAppendPointer(l, kind, size, data).list;
    assert Delete(u.nodes, |l.nodes|) == l.nodes;
  }

  /** Removing the node an insert placed gives back the original nodes. */
  lemma InsertThenRemove(l: ListValue, pos: nat, kind: Kind, size: nat, data: Payload)
    requires Valid(l) && pos <= |l.nodes|
    ensures ListRemove(ListInsertPointer(l, pos, kind, size, data).list, pos).nodes == l.nodes
  {
    var u := ListInsertPointer(l, pos, kind, size, data).list;
    assert u.nodes == l.nodes[..pos] + [Node(kind, size, data)] + l.nodes[pos..];
    assert Delete(u.nodes, pos) == l.nodes;
  }

  /** An insert at the length or beyond is exactly an append. */
  lemma InsertAtEndIsAppend(l: ListValue, pos: nat, kind: Kind, size: nat, data: Payload)
    requires Valid(l) && Copyable(kind, size, data) && pos >= |l.nodes|
    ensures ListInsert(l, pos, kind, size, data) == ListAppend(l, kind, size, data)
  {
    if pos == |l.nodes| {
      assert l.nodes[..pos] == l.nodes && l.nodes[pos..] == [];
    }
  }

  /** A pop that hands over the payload leaves the same list a plain remove does, without freeing it. */
  lemma PopKeepsPayloadAlive(l: ListValue, pos: nat)
    requires Valid(l) && pos < |l.nodes|
    ensures var p := Pop(l, pos, true);
            p.data == Some(l.nodes[pos].data) && p.freed.None? && p.list == ListRemove(l, pos)
  {
  }

  // ---------------------------------------------------------------------------
  // Where the source differs from its names

  /** list_contains as written misses a node holding exactly the probed bytes; the intended test finds it. */
  lemma ContainsAsWrittenMissesEqualBytes()
    ensures var l := ListValue([Node(Generic, 1, Bytes([7]))], MinimumSize);
            && ContainsReadable(l, 1, [7])
            && !ContainsAsWritten(l, 1, [7])
            && Contains(l, 1, [7])
  {
    var l := ListValue([Node(Generic, 1, Bytes([7]))], MinimumSize);
    assert MemCompare([7], l.nodes[0].data, 1) == Equal;
  }

  /** list_contains as written reports a node whose bytes differ from the probe. */
  lemma ContainsAsWrittenFindsDifferentBytes()
    ensures var l := ListValue([Node(Generic, 1, Bytes([9]))], MinimumSize);
            && ContainsReadable(l, 1, [7])
            && ContainsAsWritten(l, 1, [7])
            && !Contains(l, 1, [7])
  {
    var l := ListValue([Node(Generic, 1, Bytes([9]))], MinimumSize);
    var probe: seq<byte> := [7];
    assert probe[..1][0] != l.nodes[0].data.bytes[..1][0];
    assert MemCompare(probe, l.nodes[0].data, 1) == Different;
  }

  /**
   * list_append keeps a Null node's size, so a Null node of four bytes can
   * sit in a list. Probing that list with four bytes makes the as-written
   * scan stop there and read through the NULL payload; the intended test
   * answers false.
   */
  lemma NullNodeOfProbedSizeFaults()
    ensures var l := ListAppend(Init(), Null, 4, NoData).list;
            && l.nodes == [Node(Null, 4, NoData)]
            && ContainsReadable(l, 4, [1, 2, 3, 4])
            && StopsAt(l, 4, [1, 2, 3, 4], 0)
            && MemCompare([1, 2, 3, 4], l.nodes[0].data, 4) == NullRead
            && !Contains(l, 4, [1, 2, 3, 4])
  {
  }

  /** A blob appended by copy is then contained, by the intended test. */
  lemma AppendedBlobIsContained(l: ListValue, kind: Kind, size: nat, bytes: seq<byte>)
    requires Valid(l) && IsBlobKind(kind) && size <= |bytes| && ContainsReadable(l, size, bytes)
    ensures Copyable(kind, size, Bytes(bytes))
    ensures var u := ListAppend(l, kind, size, Bytes(bytes));
            u.ok && ContainsReadable(u.list, size, bytes) && Contains(u.list, size, bytes)
  {
    var u := ListAppend(l, kind, size, Bytes(bytes));
    var last := u.list.nodes[|l.nodes|];
    assert last.data == Bytes(bytes[..size]);
    assert forall i :: 0 <= i < |l.nodes| ==> u.list.nodes[i] == l.nodes[i];
    assert MemCompare(bytes, last.data, size) == Equal;
  }

  /**
   * After an append the intended test holds exactly when it held before or
   * the new node matches: an append makes nothing else contained.
   */
  lemma ContainsAfterAppend(l: ListValue, kind: Kind, size: nat, d: Payload, probeSize: nat, probe: seq<byte>)
    requires Valid(l) && ContainsReadable(l, probeSize, probe)
    requires size == probeSize ==> ComparableWith(d, probeSize)
    ensures var u := ListAppendPointer(l, kind, size, d).list;
            && ContainsReadable(u, probeSize, probe)
            && (Contains(u, probeSize, probe) <==>
                  Contains(l, probeSize, probe) || (size == probeSize && MemCompare(probe, d, probeSize) == Equal))
  {
    var u := ListAppendPointer(l, kind, size, d).list;
    assert u.nodes == l.nodes + [Node(kind, size, d)];
    assert forall i :: 0 <= i < |l.nodes| ==> u.nodes[i] == l.nodes[i];
    if Contains(u, probeSize, probe) {
      var i :| 0 <= i < |u.nodes| && u.nodes[i].size == probeSize && MemCompare(probe, u.nodes[i].data, probeSize) == Equal;
      if i < |l.nodes| {
        assert l.nodes[i].size == probeSize && MemCompare(probe, l.nodes[i].data, probeSize) == Equal;
      }
    }
    if size == probeSize && MemCompare(probe, d, probeSize) == Equal {
      assert u.nodes[|l.nodes|] == Node(kind, size, d);
    }
  }

  /** Removing a node makes nothing contained that was not contained before. */
  lemma ContainsAfterRemove(l: ListValue, pos: nat, size: nat, data: seq<byte>)
    requires Valid(l) && ContainsReadable(l, size, data)
    ensures ContainsReadable(ListRemove(l, pos), size, data)
    ensures Contains(ListRemove(l, pos), size, data) ==> Contains(l, size, data)
  {
    var r := ListRemove(l, pos);
    if pos < |l.nodes| {
      assert forall i :: 0 <= i < |r.nodes| ==> r.nodes[i] == l.nodes[if i < pos then i else i + 1];
      if Contains(r, size, data) {
        var i :| 0 <= i < |r.nodes| && r.nodes[i].size == size && MemCompare(data, r.nodes[i].data, size) == Equal;
        var k := if i < pos then i else i + 1;
        assert l.nodes[k] == r.nodes[i];
      }
    }
  }

  /** list_empty as written leaves every list of two or more nodes non-empty. */
  lemma EmptyAsWrittenLeavesNodes(s: seq<Node>)
    requires 2 <= |s|
    ensures OddIndexed(s) != [] && OddIndexed(s)[0] == s[1]
  {
  }

  /** list_pop as written dereferences NULL for a bad index with a data out-pointer; the guarded pop does not. */
  lemma PopAsWrittenDereferencesNull()
    ensures PopAsWritten(Init(), 0, true).NullDereference?
    ensures Pop(Init(), 0, true) == Popped(ReservedError, 0, Some(NoData), Init(), None)
  {
  }

  /**
   * list_resize may leave every slot live: eight nodes in twelve slots
   * resized to eight. The next list_remove's shift then reads slot 8 of an
   * 8-slot array, which RemoveShiftAsWritten's precondition rules out and
   * RemoveShift's does not.
   */
  lemma ResizeCanFillEverySlot()
    ensures var l := ListValue(seq(8, _ => Node(Null, 0, NoData)), 12);
            var u := Resize(l, 8);
            && Roomy(l) && u.ok && Valid(u.list)
            && |u.list.nodes| == u.list.capacity
            && !Roomy(u.list)
  {
  }
}

/**
 * The loops of c-utils/list.c, written as loops over the slot array.
 *
 * A slot array is a `seq<Node>` whose length is the list's capacity; only
 * its first `length` entries are live. The shift loops of list_remove and
 * list_insert are stated here with the array bounds they need, and the
 * element-wise results are tied back to the list functions of TaggedList.
 */
module ListLoops {
  import opened Wrappers
  import opened TaggedList

  /**
   * The shift loop of list_remove as written: from `pos` while the index is
   * below `length`, each slot takes the value of the next one. The last step
   * reads slot `length`, so the array needs a slot past the live ones.
   */
  method RemoveShiftAsWritten(slots: seq<Node>, length: nat, pos: nat) returns (r: seq<Node>)
    requires pos < length < |slots|
    ensures |r| == |slots|
    ensures r[..length - 1] == Delete(slots[..length], pos)
    ensures r[length..] == slots[length..]
  {
    r := slots;
    var index := pos;
    while index < length
      invariant pos <= index <= length
      invariant |r| == |slots|
      invariant forall k :: 0 <= k < pos ==> r[k] == slots[k]
      invariant forall k :: pos <= k < index ==> r[k] == slots[k + 1]
      invariant forall k :: index <= k < |slots| ==> r[k] == slots[k]
    {
      r := r[index := r[index + 1]];
      index := index + 1;
    }
  }

  /** The shift loop of list_remove stopping one step earlier: it never reads past the last live slot. */
  method RemoveShift(slots: seq<Node>, length: nat, pos: nat) returns (r: seq<Node>)
    requires pos < length <= |slots|
    ensures |r| == |slots|
    ensures r[..length - 1] == Delete(slots[..length], pos)
    ensures r[length - 1..] == slots[length - 1..]
  {
    r := slots;
    var index := pos;
    while index + 1 < length
      invariant pos <= index < length
      invariant |r| == |slots|
      invariant forall k :: 0 <= k < pos ==> r[k] == slots[k]
      invariant forall k :: pos <= k < index ==> r[k] == slots[k + 1]
      invariant forall k :: index <= k < |slots| ==> r[k] == slots[k]
    {
      r := r[index := r[index + 1]];
      index := index + 1;
    }
  }

  /**
   * list_remove on the slot array: the as-written shift, the length
   * decrement, and the shrink, where realloc keeps the first ShrinkTarget
   * slots. Its result is the list ListRemove describes.
   */
  method RemoveInSlots(slots: seq<Node>, length: nat, pos: nat) returns (r: seq<Node>, newLength: nat)
    requires MinimumSize <= |slots| && length < |slots|
    requires pos < length
    ensures newLength <= |r|
    ensures ListValue(r[..newLength], |r|) == ListRemove(ListValue(slots[..length], |slots|), pos)
  {
    var shifted := RemoveShiftAsWritten(slots, length, pos);
    newLength := length - 1;
    r := shifted;
    if 4 * newLength <= |slots| {
      var target := ShrinkTarget(|slots|, newLength);
      if target < |slots| && MinimumSize <= target {
        r := shifted[..target];
      }
    }
    assert r[..newLength] == shifted[..length - 1];
  }

  /**
   * The shift loop of list_insert: from `length` down to `pos + 1` each slot
   * takes the value of the one before it, then the new node goes to `pos`.
   * It writes slot `length`, which the preceding growth step keeps in bounds.
   */
  method InsertShift(slots: seq<Node>, length: nat, pos: nat, n: Node) returns (r: seq<Node>)
    requires pos <= length < |slots|
    ensures |r| == |slots|
    ensures r[..length + 1] == slots[..pos] + [n] + slots[pos..length]
    ensures r[length + 1..] == slots[length + 1..]
  {
    r := slots;
    var index := length;
    while index > pos
      invariant pos <= index <= length
      invariant |r| == |slots|
      invariant forall k :: 0 <= k <= index ==> r[k] == slots[k]
      invariant forall k :: index < k <= length ==> r[k] == slots[k - 1]
      invariant forall k :: length < k < |slots| ==> r[k] == slots[k]
    {
      r := r[index := r[index - 1]];
      index := index - 1;
    }
    r := r[pos := n];
  }

  /** list_insert on the slot array: grow first when needed, then shift and place. Its result is InsertNode's list. */
  method InsertInSlots(slots: seq<Node>, length: nat, pos: nat, n: Node) returns (r: seq<Node>, newLength: nat)
    requires MinimumSize <= |slots| && length <= |slots|
    requires pos <= length
    ensures newLength <= |r|
    ensures Update(true, ListValue(r[..newLength], |r|)) == InsertNode(ListValue(slots[..length], |slots|), pos, Some(n))
  {
    var grown := slots;
    if length + 1 >= |slots| {
      var size := NewSize(|slots|);
      grown := slots + seq(size - |slots|, _ => n);
    }
    r := InsertShift(grown, length, pos, n);
    newLength := length + 1;
    assert grown[..length] == slots[..length];
  }

  /** What the list_contains loop ends with: an answer, or a read through a NULL payload. */
  datatype ScanOutcome = Answer(found: bool) | ScanFault

  /**
   * The loop of list_contains as written: stop with true at the first node
   * of the probed size whose bytes differ, fault if that node's payload is
   * NULL, and answer false when every node of the probed size compares equal.
   */
  method ContainsScan(l: ListValue, size: nat, data: seq<byte>) returns (r: ScanOutcome)
    requires ContainsReadable(l, size, data)
    ensures r == ScanFault <==> exists i :: 0 <= i < |l.nodes| && StopsAt(l, size, data, i) && MemCompare(data, l.nodes[i].data, size) == NullRead
    ensures r == Answer(true) <==> exists i :: 0 <= i < |l.nodes| && StopsAt(l, size, data, i) && MemCompare(data, l.nodes[i].data, size) == Different
    ensures r == Answer(false) <==>
              forall i :: 0 <= i < |l.nodes| && l.nodes[i].size == size ==> MemCompare(data, l.nodes[i].data, size) == Equal
    ensures (forall i :: 0 <= i < |l.nodes| && l.nodes[i].size == size ==> MemCompare(data, l.nodes[i].data, size) != NullRead) ==>
              r == Answer(ContainsAsWritten(l, size, data))
  {
    var index := 0;
    while index < |l.nodes|
      invariant 0 <= index <= |l.nodes|
      invariant forall j :: 0 <= j < index && l.nodes[j].size == size ==> MemCompare(data, l.nodes[j].data, size) == Equal
    {
      var n := l.nodes[index];
      if size == n.size {
        var c := MemCompare(data, n.data, size);
        if c != Equal {
          assert StopsAt(l, size, data, index);
          StopIsUnique(l, size, data, index);
          return if c == NullRead then ScanFault else Answer(true);
        }
      }
      index := index + 1;
    }
    return Answer(false);
  }

  /** The scan stops at one index at most. */
  lemma StopIsUnique(l: ListValue, size: nat, data: seq<byte>, i: nat)
    requires ContainsReadable(l, size, data) && StopsAt(l, size, data, i)
    ensures forall k :: 0 <= k < |l.nodes| && StopsAt(l, size, data, k) ==> k == i
  {
  }

  /** The loop of list_contains as intended: true exactly when some node of the probed size has the same bytes. */
  method ContainsGuarded(l: ListValue, size: nat, data: seq<byte>) returns (found: bool)
    requires ContainsReadable(l, size, data)
    ensures found <==> Contains(l, size, data)
  {
    var index := 0;
    while index < |l.nodes|
      invariant 0 <= index <= |l.nodes|
      invariant forall j :: 0 <= j < index && l.nodes[j].size == size ==> MemCompare(data, l.nodes[j].data, size) != Equal
    {
      var n := l.nodes[index];
      if size == n.size && MemCompare(data, n.data, size) == Equal {
        return true;
      }
      index := index + 1;
    }
    return false;
  }

  /** The elements at odd indices, in order. */
  function OddIndexed<T>(s: seq<T>): (r: seq<T>)
    ensures |r| == |s| / 2
    ensures forall i :: 0 <= i < |r| ==> r[i] == s[2 * i + 1]
  {
    if |s| < 2 then [] else [s[1]] + OddIndexed(s[2..])
  }

  lemma OddIndexedStep<T>(s: seq<T>, k: nat)
    requires 2 * k + 2 <= |s|
    ensures OddIndexed(s[..2 * k + 2]) == OddIndexed(s[..2 * k]) + [s[2 * k + 1]]
  {
    var a := OddIndexed(s[..2 * k + 2]);
    var b := OddIndexed(s[..2 * k]) + [s[2 * k + 1]];
    assert |a| == |b|;
    forall i | 0 <= i < |a|
      ensures a[i] == b[i]
    {
    }
  }

  /** What list_empty as written leaves after `k` steps: the odd-indexed nodes of the first 2k, then the untouched rest. */
  function Survivors<T>(s: seq<T>, k: nat): (r: seq<T>)
    ensures 2 * k <= |s| ==> |r| == |s| - k
    ensures 2 * k > |s| ==> r == OddIndexed(s)
  {
    var m := if 2 * k <= |s| then 2 * k else |s|;
    assert s[..|s|] == s;
    OddIndexed(s[..m]) + s[m..]
  }

  /** One step of list_empty as written: removing index `k` drops the node at 2k and keeps the one at 2k + 1. */
  lemma SurvivorsStep<T>(s: seq<T>, k: nat)
    requires 2 * k < |s|
    ensures k < |Survivors(s, k)|
    ensures Delete(Survivors(s, k), k) == Survivors(s, k + 1)
  {
    var cur := Survivors(s, k);
    assert cur == OddIndexed(s[..2 * k]) + s[2 * k..];
    var d := Delete(cur, k);
    assert d == OddIndexed(s[..2 * k]) + s[2 * k + 1..];
    if 2 * k + 2 <= |s| {
      OddIndexedStep(s, k);
      assert s[2 * k + 1..] == [s[2 * k + 1]] + s[2 * k + 2..];
    } else {
      assert s[2 * k + 1..] == [];
      assert OddIndexed(s[..2 * k]) == OddIndexed(s);
    }
  }

  /**
   * list_empty as written: remove index 0, 1, 2, ... while the index is below
   * the shrinking length. Each step skips the node that slid into the freed
   * slot, so exactly the nodes at odd indices survive.
   */
  method EmptyAsWritten(l: ListValue) returns (r: ListValue)
    requires Valid(l)
    ensures Valid(r) && r.capacity <= l.capacity
    ensures r.nodes == OddIndexed(l.nodes)
    ensures |r.nodes| == |l.nodes| / 2
  {
    r := l;
    var index := 0;
    assert l.nodes[..0] == [] && l.nodes[0..] == l.nodes;
    while index < |r.nodes|
      invariant Valid(r) && r.capacity <= l.capacity
      invariant 2 * index <= |l.nodes| + 1
      invariant r.nodes == Survivors(l.nodes, index)
      decreases |r.nodes| - index
    {
      SurvivorsStep(l.nodes, index);
      r := ListRemove(r, index);
      index := index + 1;
    }
  }

  /** list_empty as intended: remove index 0 until no node is left. */
  method Empty(l: ListValue) returns (r: ListValue)
    requires Valid(l)
    ensures Valid(r) && r.capacity <= l.capacity
    ensures r.nodes == []
  {
    r := l;
    while 0 < |r.nodes|
      invariant Valid(r) && r.capacity <= l.capacity
      decreases |r.nodes|
    {
      r := ListRemove(r, 0);
    }
  }
}

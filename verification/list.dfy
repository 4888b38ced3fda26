/**
 * The tagged, growable list of c-utils/list.c, modelled as immutable values.
 *
 * A C `list` is `{length, size, nodes}`; here a `ListValue` holds the live
 * nodes (`nodes`, whose length is the C `length`) and the allocated slot
 * count (`capacity`, the C `size`). Every C operation that mutates a list
 * becomes a function from the old list value to the new one. The floating
 * point growth and shrink arithmetic of the source is done in integers.
 */
module TaggedList {
  import opened Wrappers

  /** LIST_MINIMUM_SIZE: no list ever has fewer slots than this. */
  const MinimumSize: nat := 8

  newtype byte = b: int | 0 <= b < 256

  /** The `ltype` tag of a node. */
  datatype Kind =
    | Null | Bool | Char | Double | Int | SizeT | String | List | Map | Generic
    | ReservedEmpty   // "any kind" argument to the node lookup
    | ReservedError   // what the type getter answers for a bad index

  /** What a node's `data` pointer refers to. */
  datatype Payload =
    | NoData                  // a NULL pointer
    | Bytes(bytes: seq<byte>) // a heap buffer: scalars, strings and generic blobs
    | Nested(list: ListValue) // a list owned by the node
    | Foreign(token: nat)     // a map, whose contents this model does not look into

  /** An owned slot of a list: `{type, size, data}`. */
  datatype Node = Node(kind: Kind, size: nat, data: Payload)

  datatype ListValue = ListValue(nodes: seq<Node>, capacity: nat)

  /** A mutating call's boolean answer together with the list it leaves behind. */
  datatype Update = Update(ok: bool, list: ListValue)

  /** The shape every list has: at least the minimum number of slots, and no more live nodes than slots. */
  predicate Valid(l: ListValue)
  {
    MinimumSize <= l.capacity && |l.nodes| <= l.capacity
  }

  /** The stronger shape append, insert and remove leave behind: at least one free slot after the live ones. */
  predicate Roomy(l: ListValue)
  {
    MinimumSize <= l.capacity && |l.nodes| < l.capacity
  }

  /** Kinds whose payload is a plain byte buffer copied with memcpy or string_copy. */
  predicate IsBlobKind(k: Kind)
  {
    !(k.Null? || k.List? || k.Map?)
  }

  // ---------------------------------------------------------------------------
  // Growth arithmetic

  /** The value calculate_new_size multiplies by 1.5. */
  function GrowthBase(s: nat): nat
  {
    if s <= 1 then s + 1 else s
  }

  /** calculate_new_size: 1.5 times the growth base, truncated by the conversion back to size_t. */
  function NewSize(s: nat): (r: nat)
    ensures s < r
    ensures 2 * r <= 3 * GrowthBase(s) < 2 * r + 2
  {
    GrowthBase(s) * 3 / 2
  }

  /** The capacity of a list that started empty and received `n` successful appends. */
  function CapacityAfterAppends(n: nat): (c: nat)
    ensures MinimumSize <= c
    ensures n < c
  {
    if n == 0 then MinimumSize
    else
      var prior := CapacityAfterAppends(n - 1);
      if n >= prior then NewSize(prior) else prior
  }

  /** The capacity list_remove asks for when it shrinks: size - (size - length) * 0.5, truncated. */
  function ShrinkTarget(capacity: nat, length: nat): nat
  {
    (capacity + length) / 2
  }

  // ---------------------------------------------------------------------------
  // Which payloads can be copied, and what a copy looks like

  /**
   * What node_init needs of its arguments to read them without undefined
   * behaviour: a list or map pointer (or NULL) for the container kinds, and a
   * buffer of at least `size` bytes for every other non-Null kind.
   */
  predicate Copyable(kind: Kind, size: nat, data: Payload)
    decreases data, 1
  {
    if kind.Null? then true
    else if kind.List? then data.NoData? || (data.Nested? && DeepCopyable(data.list))
    else if kind.Map? then data.NoData? || data.Foreign?
    else data.Bytes? && size <= |data.bytes|
  }

  predicate DeepCopyable(l: ListValue)
    decreases Nested(l), 0
  {
    forall i :: 0 <= i < |l.nodes| ==> Copyable(l.nodes[i].kind, l.nodes[i].size, l.nodes[i].data)
  }

  /** A node copy succeeds unless a list or map node, at any depth, holds NULL. */
  predicate Intact(kind: Kind, data: Payload)
    decreases data, 1
  {
    if kind.List? then data.Nested? && DeepIntact(data.list)
    else if kind.Map? then !data.NoData?
    else true
  }

  predicate DeepIntact(l: ListValue)
    decreases Nested(l), 0
  {
    forall i :: 0 <= i < |l.nodes| ==> Intact(l.nodes[i].kind, l.nodes[i].data)
  }

  /**
   * The shape of a freshly copied node: Null nodes carry no payload, blobs
   * are exactly `size` bytes long, maps are present, and nested lists are
   * themselves fresh copies.
   */
  predicate NormalNode(n: Node)
    decreases n.data, 1
  {
    if n.kind.Null? then n.data.NoData?
    else if n.kind.List? then n.data.Nested? && Normal(n.data.list)
    else if n.kind.Map? then n.data.Foreign?
    else n.data.Bytes? && |n.data.bytes| == n.size
  }

  /** The shape of a list built by list_copy: normal nodes, and the capacity appending them one by one gives. */
  predicate Normal(l: ListValue)
    decreases Nested(l), 0
  {
    && l.capacity == CapacityAfterAppends(|l.nodes|)
    && forall i :: 0 <= i < |l.nodes| ==> NormalNode(l.nodes[i])
  }

  /**
   * `dst` is a copy of `src`, defined without reference to how copies are
   * made: same kind and size; a Null node carries nothing; a blob holds the
   * first `size` bytes of the source; a map copy holds the same map; a list
   * copy is a fresh list whose nodes are copies of the source's, in order.
   */
  predicate NodeCopyOf(src: Node, dst: Node)
    decreases src.data, 1
  {
    && dst.kind == src.kind && dst.size == src.size
    && if src.kind.Null? then dst.data.NoData?
       else if src.kind.List? then src.data.Nested? && dst.data.Nested? && ListCopyOf(src.data.list, dst.data.list)
       else if src.kind.Map? then src.data.Foreign? && dst.data == src.data
       else src.data.Bytes? && src.size <= |src.data.bytes| && dst.data == Bytes(src.data.bytes[..src.size])
  }

  predicate ListCopyOf(src: ListValue, dst: ListValue)
    decreases Nested(src), 0
  {
    && Normal(dst)
    && |dst.nodes| == |src.nodes|
    && forall i :: 0 <= i < |src.nodes| ==> NodeCopyOf(src.nodes[i], dst.nodes[i])
  }

  // ---------------------------------------------------------------------------
  // Nodes

  /** node_init_pointer: ownership of `data` moves into the node; nothing is copied or checked. */
  function NodeInitPointer(kind: Kind, size: nat, data: Payload): (n: Node)
    ensures n.kind == kind && n.size == size && n.data == data
  {
    Node(kind, size, data)
  }

  /**
   * node_init: a node owning an independent copy of `data`. Lists are deep
   * copied with list_copy, blobs keep their first `size` bytes, Null nodes
   * drop whatever pointer they were given.
   */
  function NodeInit(kind: Kind, size: nat, data: Payload): (r: Option<Node>)
    requires Copyable(kind, size, data)
    ensures r.Some? <==> Intact(kind, data)
    ensures r.Some? ==> r.value.kind == kind && r.value.size == size && NormalNode(r.value)
    ensures r.Some? ==> NodeCopyOf(Node(kind, size, data), r.value)
    ensures r.Some? && IsBlobKind(kind) ==> r.value.data == Bytes(data.bytes[..size])
    ensures r.Some? && kind.Map? ==> r.value.data == data
    ensures r.Some? && kind.List? ==> |r.value.data.list.nodes| == |data.list.nodes|
    decreases data, 2
  {
    if kind.Null? then Some(Node(Null, size, NoData))
    else if kind.List? then
      if data.NoData? then None
      else
        match ListCopy(data.list)
        case None => None
        case Some(c) => Some(Node(List, size, Nested(c)))
    else if kind.Map? then
      if data.NoData? then None else Some(Node(Map, size, data))
    else Some(Node(kind, size, Bytes(data.bytes[..size])))
  }

  /** What node_free releases: the payload of every node that is not of the Null kind. */
  function Released(n: Node): (r: Option<Payload>)
    ensures r.None? <==> n.kind.Null?
    ensures r.Some? ==> r.value == n.data
  {
    if n.kind.Null? then None else Some(n.data)
  }

  /** get_node: the live node at `pos`. A kind mismatch is only logged, so `expected` never changes the answer. */
  function GetNode(l: ListValue, pos: nat, expected: Kind): (r: Option<Node>)
    ensures r.Some? <==> pos < |l.nodes|
    ensures r.Some? ==> r.value == l.nodes[pos]
  {
    if pos < |l.nodes| then Some(l.nodes[pos]) else None
  }

  // ---------------------------------------------------------------------------
  // Construction, copy and resize

  /** list_init: no live nodes and the minimum number of slots. */
  function Init(): (r: ListValue)
    ensures Roomy(r) && Normal(r)
    ensures |r.nodes| == 0 && r.capacity == MinimumSize
  {
    ListValue([], MinimumSize)
  }

  /**
   * list_copy: a fresh list built by appending a copy of every node in order.
   * It fails, leaving nothing behind, as soon as one node's copy fails.
   */
  function ListCopy(l: ListValue): (r: Option<ListValue>)
    requires DeepCopyable(l)
    ensures r.Some? <==> DeepIntact(l)
    ensures r.Some? ==> Normal(r.value) && |r.value.nodes| == |l.nodes|
    ensures r.Some? ==> forall i :: 0 <= i < |l.nodes| ==>
              r.value.nodes[i].kind == l.nodes[i].kind && r.value.nodes[i].size == l.nodes[i].size
    ensures r.Some? ==> ListCopyOf(l, r.value)
    decreases Nested(l), 1
  {
    CopyFrom(l, 0, Init())
  }

  /** The loop of list_copy from index `i` on, `acc` holding the copies of the nodes before `i`. */
  function CopyFrom(l: ListValue, i: nat, acc: ListValue): (r: Option<ListValue>)
    requires DeepCopyable(l) && i <= |l.nodes|
    requires Normal(acc) && |acc.nodes| == i
    requires forall j :: 0 <= j < i ==> NodeCopyOf(l.nodes[j], acc.nodes[j])
    ensures r.Some? <==> forall j :: i <= j < |l.nodes| ==> Intact(l.nodes[j].kind, l.nodes[j].data)
    ensures r.Some? ==> Normal(r.value) && |r.value.nodes| == |l.nodes|
    ensures r.Some? ==> forall j :: 0 <= j < |l.nodes| ==>
              r.value.nodes[j].kind == l.nodes[j].kind && r.value.nodes[j].size == l.nodes[j].size
    ensures r.Some? ==> ListCopyOf(l, r.value)
    decreases Nested(l), 0, |l.nodes| - i
  {
    if i == |l.nodes| then
      assert forall j :: 0 <= j < i ==> acc.nodes[j].kind == l.nodes[j].kind && acc.nodes[j].size == l.nodes[j].size by {
        forall j | 0 <= j < i ensures acc.nodes[j].kind == l.nodes[j].kind && acc.nodes[j].size == l.nodes[j].size {
          assert NodeCopyOf(l.nodes[j], acc.nodes[j]);
        }
      }
      Some(acc)
    else
      var n := l.nodes[i];
      var u := ListAppend(acc, n.kind, n.size, n.data);
      if u.ok then CopyFrom(l, i + 1, u.list) else None
  }

  /**
   * list_resize: sizes 0 and below the minimum are refused with no change;
   * otherwise nodes at and beyond the new size are dropped and the list
   * gets exactly `size` slots.
   */
  function Resize(l: ListValue, size: nat): (r: Update)
    ensures r.ok <==> MinimumSize <= size
    ensures !r.ok ==> r.list == l
    ensures r.ok ==> r.list.capacity == size && Valid(r.list)
    ensures r.ok ==> r.list.nodes == l.nodes[..if size < |l.nodes| then size else |l.nodes|]
  {
    if size == 0 then Update(false, l)
    else if size < MinimumSize then Update(false, l)
    else if size < |l.nodes| then Update(true, ListValue(l.nodes[..size], size))
    else Update(true, ListValue(l.nodes, size))
  }

  /** The growth step shared by append and insert: resize to calculate_new_size when length + 1 reaches the capacity. */
  function Grow(l: ListValue): (r: Update)
    requires Valid(l)
    ensures r.ok && r.list.nodes == l.nodes && |l.nodes| + 1 < r.list.capacity
    ensures r.list.capacity == if |l.nodes| + 1 >= l.capacity then NewSize(l.capacity) else l.capacity
  {
    if |l.nodes| + 1 >= l.capacity then Resize(l, NewSize(l.capacity)) else Update(true, l)
  }

  // ---------------------------------------------------------------------------
  // Getters

  /** list_get_length. */
  function GetLength(l: ListValue): (n: nat)
    requires Valid(l)
    ensures n <= GetCapacity(l)
    ensures forall pos: nat :: pos < n <==> GetNode(l, pos, ReservedEmpty).Some?
  {
    |l.nodes|
  }

  /** list_get_size: the number of allocated slots. */
  function GetCapacity(l: ListValue): (n: nat)
    requires Valid(l)
    ensures MinimumSize <= n
  {
    l.capacity
  }

  /** list_get_item_size: the node's size, or 0 for a bad index. */
  function GetItemSize(l: ListValue, pos: nat): (n: nat)
    ensures pos >= |l.nodes| ==> n == 0
    ensures pos < |l.nodes| ==> n == l.nodes[pos].size
  {
    match GetNode(l, pos, ReservedEmpty)
    case None => 0
    case Some(n) => n.size
  }

  /** list_get_type: the node's kind, or the reserved error tag for a bad index. */
  function GetType(l: ListValue, pos: nat): (k: Kind)
    ensures pos >= |l.nodes| ==> k == ReservedError
    ensures pos < |l.nodes| ==> k == l.nodes[pos].kind
  {
    match GetNode(l, pos, ReservedEmpty)
    case None => ReservedError
    case Some(n) => n.kind
  }

  /**
   * The typed getters (list_get_bool, _char, _int, _size_t, _string, _list,
   * _map, _generic): the stored payload of the node at `pos`, or None (the
   * getter's zero value) for a bad index. A stored kind other than
   * `expected` still yields the payload.
   */
  function GetPayload(l: ListValue, pos: nat, expected: Kind): (r: Option<Payload>)
    ensures r.None? <==> pos >= |l.nodes|
    ensures r.Some? ==> r.value == l.nodes[pos].data
  {
    match GetNode(l, pos, expected)
    case None => None
    case Some(n) => Some(n.data)
  }

  // ---------------------------------------------------------------------------
  // Containment

  /** What memcmp reports about `size` bytes: equal, different, or a read through a NULL payload. */
  datatype Comparison = Equal | Different | NullRead

  /**
   * memcmp can compare this payload over `size` bytes without reading past
   * a buffer: a byte buffer must hold at least `size` bytes. NULL payloads
   * and list or map structs are allowed; what memcmp does with them is
   * described by MemCompare.
   */
  predicate ComparableWith(p: Payload, size: nat)
  {
    p.Bytes? ==> size <= |p.bytes|
  }

  /** The caller's buffer holds `size` bytes, and every node of the probed size is comparable. */
  predicate ContainsReadable(l: ListValue, size: nat, data: seq<byte>)
  {
    && size <= |data|
    && forall i :: 0 <= i < |l.nodes| && l.nodes[i].size == size ==> ComparableWith(l.nodes[i].data, size)
  }

  /**
   * memcmp(data, payload, size). Zero bytes always compare equal; any other
   * count reads through a NULL payload; a nested list or a map is compared
   * by the bytes of its C struct, which this model takes to differ from
   * every probe.
   */
  function MemCompare(data: seq<byte>, p: Payload, size: nat): (c: Comparison)
    requires size <= |data| && ComparableWith(p, size)
    ensures c == NullRead <==> 0 < size && p.NoData?
    ensures c == Equal <==> size == 0 || (p.Bytes? && data[..size] == p.bytes[..size])
  {
    if size == 0 then Equal
    else
      match p
      case NoData => NullRead
      case Bytes(b) => if data[..size] == b[..size] then Equal else Different
      case Nested(_) => Different
      case Foreign(_) => Different
  }

  /** list_contains as written, on lists it scans without a fault: some node of size `size` compares different. */
  predicate ContainsAsWritten(l: ListValue, size: nat, data: seq<byte>)
    requires ContainsReadable(l, size, data)
  {
    exists i :: 0 <= i < |l.nodes| && l.nodes[i].size == size && MemCompare(data, l.nodes[i].data, size) == Different
  }

  /**
   * The as-written scan stops at index `i`: node `i` has the probed size and
   * does not compare equal, and every earlier node of that size does.
   */
  predicate StopsAt(l: ListValue, size: nat, data: seq<byte>, i: nat)
    requires ContainsReadable(l, size, data)
  {
    && i < |l.nodes| && l.nodes[i].size == size && MemCompare(data, l.nodes[i].data, size) != Equal
    && forall j :: 0 <= j < i && l.nodes[j].size == size ==> MemCompare(data, l.nodes[j].data, size) == Equal
  }

  /** list_contains as intended: some node has size `size` and the same bytes. */
  predicate Contains(l: ListValue, size: nat, data: seq<byte>)
    requires ContainsReadable(l, size, data)
  {
    exists i :: 0 <= i < |l.nodes| && l.nodes[i].size == size && MemCompare(data, l.nodes[i].data, size) == Equal
  }

  // ---------------------------------------------------------------------------
  // Replace, insert, append

  /** list_replace after its node is built: only slot `pos` changes, and only when it is live. */
  function ReplaceNode(l: ListValue, pos: nat, made: Option<Node>): (r: Update)
    requires Valid(l)
    ensures r.ok <==> pos < |l.nodes| && made.Some?
    ensures !r.ok ==> r.list == l
    ensures r.list.capacity == l.capacity && |r.list.nodes| == |l.nodes|
    ensures r.ok ==> r.list.nodes[pos] == made.value
    ensures forall i :: 0 <= i < |l.nodes| && i != pos ==> r.list.nodes[i] == l.nodes[i]
  {
    if pos >= |l.nodes| then Update(false, l)
    else
      match made
      case None => Update(false, l)
      case Some(n) => Update(true, l.(nodes := l.nodes[pos := n]))
  }

  /** list_replace: a copy of the new value replaces the node at `pos`; a position past the end is refused. */
  function ListReplace(l: ListValue, pos: nat, kind: Kind, size: nat, data: Payload): (r: Update)
    requires Valid(l)
    requires pos < |l.nodes| ==> Copyable(kind, size, data)
    ensures pos >= |l.nodes| ==> !r.ok && r.list == l
    ensures r.ok <==> pos < |l.nodes| && Intact(kind, data)
    ensures !r.ok ==> r.list == l
    ensures r.list.capacity == l.capacity && |r.list.nodes| == |l.nodes|
    ensures r.ok ==> r.list.nodes[pos].kind == kind && r.list.nodes[pos].size == size && NormalNode(r.list.nodes[pos])
    ensures r.ok ==> NodeCopyOf(Node(kind, size, data), r.list.nodes[pos])
    ensures forall i :: 0 <= i < |l.nodes| && i != pos ==> r.list.nodes[i] == l.nodes[i]
  {
    if pos >= |l.nodes| then Update(false, l)
    else ReplaceNode(l, pos, NodeInit(kind, size, data))
  }

  /** list_replace_pointer: the node at `pos` takes ownership of `data` as given. */
  function ListReplacePointer(l: ListValue, pos: nat, kind: Kind, size: nat, data: Payload): (r: Update)
    requires Valid(l)
    ensures r.ok <==> pos < |l.nodes|
    ensures !r.ok ==> r.list == l
    ensures r.list.capacity == l.capacity && |r.list.nodes| == |l.nodes|
    ensures r.ok ==> r.list.nodes[pos] == Node(kind, size, data)
    ensures forall i :: 0 <= i < |l.nodes| && i != pos ==> r.list.nodes[i] == l.nodes[i]
  {
    ReplaceNode(l, pos, Some(NodeInitPointer(kind, size, data)))
  }

  /**
   * The body of list_append once its node is built: grow when length + 1
   * reaches the capacity, then place the node last. A node that could not
   * be built leaves the list grown but otherwise unchanged.
   */
  function AppendNode(l: ListValue, made: Option<Node>): (r: Update)
    requires Valid(l)
    ensures r.ok <==> made.Some?
    ensures Roomy(r.list)
    ensures r.list.capacity == if |l.nodes| + 1 >= l.capacity then NewSize(l.capacity) else l.capacity
    ensures r.ok ==> r.list.nodes == l.nodes + [made.value]
    ensures !r.ok ==> r.list.nodes == l.nodes
  {
    var g := Grow(l);
    if !g.ok then Update(false, l)
    else
      match made
      case None => Update(false, g.list)
      case Some(n) => Update(true, g.list.(nodes := g.list.nodes + [n]))
  }

  /** list_append: a copy of the value becomes the new last node. */
  function ListAppend(l: ListValue, kind: Kind, size: nat, data: Payload): (r: Update)
    requires Valid(l) && Copyable(kind, size, data)
    ensures r.ok <==> Intact(kind, data)
    ensures Roomy(r.list)
    ensures r.list.capacity == if |l.nodes| + 1 >= l.capacity then NewSize(l.capacity) else l.capacity
    ensures r.ok ==> |r.list.nodes| == |l.nodes| + 1 && r.list.nodes[..|l.nodes|] == l.nodes
    ensures r.ok ==> var last := r.list.nodes[|l.nodes|];
                     last.kind == kind && last.size == size && NormalNode(last)
    ensures r.ok ==> NodeCopyOf(Node(kind, size, data), r.list.nodes[|l.nodes|])
    ensures !r.ok ==> r.list.nodes == l.nodes
    decreases data, 3
  {
    AppendNode(l, NodeInit(kind, size, data))
  }

  /** list_append_pointer: the new last node takes ownership of `data` as given. */
  function ListAppendPointer(l: ListValue, kind: Kind, size: nat, data: Payload): (r: Update)
    requires Valid(l)
    ensures r.ok && Roomy(r.list)
    ensures r.list.capacity == if |l.nodes| + 1 >= l.capacity then NewSize(l.capacity) else l.capacity
    ensures r.list.nodes == l.nodes + [Node(kind, size, data)]
  {
    AppendNode(l, Some(NodeInitPointer(kind, size, data)))
  }

  /**
   * The body of list_insert once its node is built. A position past the end
   * is handed to append; otherwise the list grows if needed and the nodes
   * from `pos` on move one slot right to make room.
   */
  function InsertNode(l: ListValue, pos: nat, made: Option<Node>): (r: Update)
    requires Valid(l)
    ensures r.ok <==> made.Some?
    ensures Roomy(r.list)
    ensures r.list.capacity == if |l.nodes| + 1 >= l.capacity then NewSize(l.capacity) else l.capacity
    ensures pos > |l.nodes| ==> r == AppendNode(l, made)
    ensures r.ok && pos <= |l.nodes| ==> r.list.nodes == l.nodes[..pos] + [made.value] + l.nodes[pos..]
    ensures !r.ok ==> r.list.nodes == l.nodes
  {
    if pos > |l.nodes| then AppendNode(l, made)
    else
      var g := Grow(l);
      if !g.ok then Update(false, l)
      else
        match made
        case None => Update(false, g.list)
        case Some(n) => Update(true, g.list.(nodes := g.list.nodes[..pos] + [n] + g.list.nodes[pos..]))
  }

  /** list_insert: a copy of the value lands at `pos`, or at the end when `pos` is past it. */
  function ListInsert(l: ListValue, pos: nat, kind: Kind, size: nat, data: Payload): (r: Update)
    requires Valid(l) && Copyable(kind, size, data)
    ensures r.ok <==> Intact(kind, data)
    ensures Roomy(r.list)
    ensures r.list.capacity == if |l.nodes| + 1 >= l.capacity then NewSize(l.capacity) else l.capacity
    ensures pos > |l.nodes| ==> r == ListAppend(l, kind, size, data)
    ensures r.ok ==> |r.list.nodes| == |l.nodes| + 1
    ensures r.ok ==> var at := if pos < |l.nodes| then pos else |l.nodes|;
                     && r.list.nodes[at].kind == kind && r.list.nodes[at].size == size
                     && NodeCopyOf(Node(kind, size, data), r.list.nodes[at])
                     && (forall i :: 0 <= i < at ==> r.list.nodes[i] == l.nodes[i])
                     && (forall i :: at <= i < |l.nodes| ==> r.list.nodes[i + 1] == l.nodes[i])
    ensures !r.ok ==> r.list.nodes == l.nodes
  {
    if pos > |l.nodes| then ListAppend(l, kind, size, data)
    else InsertNode(l, pos, NodeInit(kind, size, data))
  }

  /** list_insert_pointer: the node at `pos` (or at the end) takes ownership of `data` as given. */
  function ListInsertPointer(l: ListValue, pos: nat, kind: Kind, size: nat, data: Payload): (r: Update)
    requires Valid(l)
    ensures r.ok && Roomy(r.list)
    ensures r.list.capacity == if |l.nodes| + 1 >= l.capacity then NewSize(l.capacity) else l.capacity
    ensures pos > |l.nodes| ==> r == ListAppendPointer(l, kind, size, data)
    ensures pos <= |l.nodes| ==> r.list.nodes == l.nodes[..pos] + [Node(kind, size, data)] + l.nodes[pos..]
  {
    if pos > |l.nodes| then ListAppendPointer(l, kind, size, data)
    else InsertNode(l, pos, Some(NodeInitPointer(kind, size, data)))
  }

  // ---------------------------------------------------------------------------
  // Remove and pop

  /** The sequence with index `pos` deleted. */
  function Delete<T>(s: seq<T>, pos: nat): (r: seq<T>)
    requires pos < |s|
    ensures |r| == |s| - 1
    ensures forall i :: 0 <= i < pos ==> r[i] == s[i]
    ensures forall i :: pos <= i < |r| ==> r[i] == s[i + 1]
  {
    s[..pos] + s[pos + 1..]
  }

  /**
   * list_remove: a live node is freed and the nodes after it move one slot
   * left. When at most a quarter of the slots are then in use, the list
   * asks for ShrinkTarget slots, which list_resize refuses below the minimum.
   */
  function ListRemove(l: ListValue, pos: nat): (r: ListValue)
    requires Valid(l)
    ensures pos >= |l.nodes| ==> r == l
    ensures pos < |l.nodes| ==> r.nodes == Delete(l.nodes, pos)
    ensures pos < |l.nodes| ==> Roomy(r)
    ensures r.capacity <= l.capacity
    ensures r.capacity == l.capacity || r.capacity == ShrinkTarget(l.capacity, |r.nodes|)
    ensures pos < |l.nodes| && 4 * |r.nodes| > l.capacity ==> r.capacity == l.capacity
    ensures pos < |l.nodes| && 4 * |r.nodes| <= l.capacity && MinimumSize <= ShrinkTarget(l.capacity, |r.nodes|) ==>
              r.capacity == ShrinkTarget(l.capacity, |r.nodes|)
    ensures MinimumSize > ShrinkTarget(l.capacity, |r.nodes|) ==> r.capacity == l.capacity
  {
    if pos >= |l.nodes| then l
    else
      var shifted := l.(nodes := Delete(l.nodes, pos));
      var length := |shifted.nodes|;
      if 4 * length <= l.capacity then
        var target := ShrinkTarget(l.capacity, length);
        if target >= l.capacity then shifted
        else Resize(shifted, target).list
      else shifted
  }

  /**
   * The result of list_pop: the reported kind, size and payload (None when
   * the caller passed no data out-pointer), the list left behind, and the
   * payload the removal released.
   */
  datatype PopOutcome =
    | Popped(kind: Kind, size: nat, data: Option<Payload>, list: ListValue, freed: Option<Payload>)
    | NullDereference   // the source writes through a NULL node pointer

  /**
   * list_pop as written. With a data out-pointer the node is retyped to Null
   * before the removal, so the removal frees nothing. For a bad index with a
   * data out-pointer the source writes through the NULL node it got back.
   */
  function PopAsWritten(l: ListValue, pos: nat, wantData: bool): (r: PopOutcome)
    requires Valid(l)
    ensures r.NullDereference? <==> pos >= |l.nodes| && wantData
    ensures r.Popped? && pos < |l.nodes| ==>
              && r.kind == l.nodes[pos].kind && r.size == l.nodes[pos].size
              && r.list == ListRemove(l, pos)
    ensures r.Popped? && pos < |l.nodes| && wantData ==> r.data == Some(l.nodes[pos].data) && r.freed.None?
    ensures r.Popped? && pos < |l.nodes| && !wantData ==> r.data.None? && r.freed == Released(l.nodes[pos])
    ensures pos >= |l.nodes| && !wantData ==> r == Popped(ReservedError, 0, None, l, None)
  {
    if pos < |l.nodes| then
      var n := l.nodes[pos];
      var slot := if wantData then Node(Null, 0, NoData) else n;
      var retyped := l.(nodes := l.nodes[pos := slot]);
      assert Delete(retyped.nodes, pos) == Delete(l.nodes, pos);
      Popped(n.kind, n.size, if wantData then Some(n.data) else None, ListRemove(retyped, pos), Released(slot))
    else if wantData then NullDereference
    else Popped(ReservedError, 0, None, ListRemove(l, pos), None)
  }

  /** list_pop with the NULL-node write guarded: a bad index reports the error tag, size 0 and NULL, and changes nothing. */
  function Pop(l: ListValue, pos: nat, wantData: bool): (r: PopOutcome)
    requires Valid(l)
    ensures r.Popped?
    ensures pos >= |l.nodes| ==> r == Popped(ReservedError, 0, if wantData then Some(NoData) else None, l, None)
    ensures pos < |l.nodes| ==> r == PopAsWritten(l, pos, wantData)
  {
    if pos < |l.nodes| then PopAsWritten(l, pos, wantData)
    else Popped(ReservedError, 0, if wantData then Some(NoData) else None, l, None)
  }

  // ---------------------------------------------------------------------------
  // Free

  /** The payloads node_free releases for a run of nodes, in order. */
  function FreedBy(nodes: seq<Node>): (r: seq<Payload>)
    ensures |r| <= |nodes|
    ensures forall i :: 0 <= i < |nodes| && !nodes[i].kind.Null? ==> nodes[i].data in r
    ensures forall p :: p in r ==> exists i :: 0 <= i < |nodes| && !nodes[i].kind.Null? && nodes[i].data == p
  {
    if |nodes| == 0 then []
    else
      var rest := FreedBy(nodes[1..]);
      assert forall i :: 1 <= i < |nodes| ==> nodes[i] == nodes[1..][i - 1];
      match Released(nodes[0])
      case None => rest
      case Some(p) => [p] + rest
  }

  /** list_free: every live node is freed; slots past the length are never touched. */
  function ListFree(l: ListValue): (r: seq<Payload>)
    requires Valid(l)
    ensures |r| <= |l.nodes|
    ensures forall i :: 0 <= i < |l.nodes| && !l.nodes[i].kind.Null? ==> l.nodes[i].data in r
    ensures forall p :: p in r ==> exists i :: 0 <= i < |l.nodes| && !l.nodes[i].kind.Null? && l.nodes[i].data == p
  {
    FreedBy(l.nodes)
  }
}

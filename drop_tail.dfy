// The internal queue of the SRED queue disc: a bounded FIFO measured in
// packets or in bytes, which refuses a packet that would overflow it. The
// queue disc only pushes to its tail, pops its head and reads its occupancy.
module DropTailQueue {
  import opened SredTypes

  /** A drop-tail FIFO with a capacity in its own unit. */
  datatype DropTail = DropTail(mode: QueueMode, capacity: nat, items: seq<Item>)

  /** Total size in bytes of a sequence of packets; when every packet has
      at least one byte, there are at least as many bytes as packets. */
  function Bytes(s: seq<Item>): (r: nat)
    ensures s == [] ==> r == 0
    ensures (forall i :: 0 <= i < |s| ==> s[i].size > 0) ==> r >= |s|
  {
    if s == [] then 0 else s[0].size + Bytes(s[1..])
  }

  /** Occupancy of `q` in the unit `mode` (`GetQueueSize`). */
  function Occupancy(mode: QueueMode, q: DropTail): (r: nat)
    ensures q.items == [] ==> r == 0
    ensures mode == Packets ==> r == |q.items|
    ensures mode.Bytes? && (forall i :: 0 <= i < |q.items| ==> q.items[i].size > 0) ==> r >= |q.items|
  {
    match mode
    case Bytes => Bytes(q.items)
    case Packets => |q.items|
  }

  /** Whether `q` has room for `item` in its own unit. */
  predicate HasRoom(q: DropTail, item: Item)
  {
    match q.mode
    case Packets => |q.items| < q.capacity
    case Bytes => Bytes(q.items) + item.size <= q.capacity
  }

  /** Enqueue on the internal queue: append if there is room, else refuse. */
  function Push(q: DropTail, item: Item): (DropTail, bool)
  {
    if HasRoom(q, item) then (q.(items := q.items + [item]), true) else (q, false)
  }

  /** Dequeue on the internal queue: the head, or nothing when empty. */
  function Pop(q: DropTail): (Option<Item>, DropTail)
  {
    if q.items == [] then (None, q) else (Some(q.items[0]), q.(items := q.items[1..]))
  }

  /** Byte count of a concatenation is the sum of the byte counts. */
  lemma {:induction false} BytesAppend(s: seq<Item>, t: seq<Item>)
    ensures Bytes(s + t) == Bytes(s) + Bytes(t)
  {
    if s == [] {
      assert s + t == t;
    } else {
      assert (s + t)[1..] == s[1..] + t;
      BytesAppend(s[1..], t);
    }
  }

  /** An accepted push raises the occupancy by one packet or by the packet's
      size, in either unit; a refused push changes nothing. */
  lemma PushOccupancy(q: DropTail, item: Item, mode: QueueMode)
    ensures Occupancy(mode, Push(q, item).0) ==
      if Push(q, item).1 then Occupancy(mode, q) + (if mode == Packets then 1 else item.size)
      else Occupancy(mode, q)
  {
    if HasRoom(q, item) {
      BytesAppend(q.items, [item]);
      assert Bytes([item]) == item.size by {
        assert [item][1..] == [];
      }
    }
  }

  /** The queue never holds more than its capacity in its own unit. */
  lemma PushWithinCapacity(q: DropTail, item: Item)
    requires Occupancy(q.mode, q) <= q.capacity
    ensures Occupancy(q.mode, Push(q, item).0) <= q.capacity
  {
    PushOccupancy(q, item, q.mode);
  }

  /** Pushing then popping a non-empty queue returns its old head, and the
      pushed packet ends up last: the queue is first-in first-out. */
  lemma PushPopFifo(q: DropTail, item: Item)
    requires q.items != []
    requires HasRoom(q, item)
    ensures Pop(Push(q, item).0).0 == Some(q.items[0])
    ensures Pop(Push(q, item).0).1.items == q.items[1..] + [item]
  {
  }

  /** A pop that returns a packet lowers the occupancy by that packet; a pop
      of an empty queue returns nothing and changes nothing. */
  lemma PopOccupancy(q: DropTail, mode: QueueMode)
    ensures q.items == [] ==> Pop(q) == (None, q)
    ensures q.items != [] ==>
      Occupancy(mode, Pop(q).1) + (if mode == Packets then 1 else q.items[0].size) == Occupancy(mode, q)
  {
  }
}

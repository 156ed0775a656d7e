/** The byte ring buffer of core/posix/queue.c.  Blocking is the business of
    QueueMonitor; here each method is one pass through the locked region. */
module RingQueue {
  import opened Json

  const WORD: nat := 0x1_0000_0000

  type uint32 = x: int | 0 <= x < WORD
  type Item = seq<bv8>

  /** What a pass of queue_send does to the queued items: nothing when full. */
  function Put<T>(contents: seq<T>, size: nat, item: T): Option<seq<T>> {
    if |contents| < size then Some(contents + [item]) else None
  }

  /** What a pass of queue_recv takes: the oldest item, if any. */
  function Take<T>(contents: seq<T>): Option<(T, seq<T>)> {
    if contents == [] then None else Some((contents[0], contents[1..]))
  }

  /** Slot `i` steps after `head` in a ring of `n`. */
  function Slot(head: nat, i: nat, n: nat): (s: nat)
    requires head < n && i <= n
    ensures s < n
  {
    if head + i < n then head + i else head + i - n
  }

  lemma ModuloOnce(x: nat, n: nat)
    requires n <= x < 2 * n
    ensures x % n == x - n
  {
  }

  lemma SlotIsModulo(head: nat, i: nat, n: nat)
    requires head < n && i <= n
    ensures Slot(head, i, n) == (head + i) % n
  {
  }

  /** Live slots never meet. */
  lemma SlotsDistinct(head: nat, i: nat, j: nat, n: nat)
    requires head < n && i < j <= n && j - i < n
    ensures Slot(head, i, n) != Slot(head, j, n)
  {
  }

  /** The source's step from one slot to the next. */
  function Next(slot: nat, n: nat): (s: nat)
    requires slot < n
    ensures s == if slot + 1 < n then slot + 1 else 0
  {
    if slot + 1 == n then ModuloOnce(n, n); (slot + 1) % n else (slot + 1) % n
  }

  /** Bytes taken by the first `slots` slots. */
  ghost function Area(slots: nat, itemSize: nat): nat {
    if slots == 0 then 0 else Area(slots - 1, itemSize) + itemSize
  }

  lemma {:induction false} AreaIsProduct(slots: nat, itemSize: nat)
    ensures Area(slots, itemSize) == slots * itemSize
  {
    if slots > 0 {
      AreaIsProduct(slots - 1, itemSize);
      assert slots * itemSize == (slots - 1) * itemSize + itemSize;
    }
  }

  /** Slots occupy disjoint byte ranges, in order. */
  lemma {:induction false} AreasInOrder(s: nat, t: nat, itemSize: nat)
    requires s < t
    ensures Area(s, itemSize) + itemSize <= Area(t, itemSize)
  {
    if s + 1 < t {
      AreasInOrder(s, t - 1, itemSize);
    }
  }

  /** Byte offset of a slot in the source's 32-bit arithmetic. */
  function Offset(slot: nat, itemSize: nat): nat {
    (slot * itemSize) % WORD
  }

  lemma OffsetIsArea(slot: nat, n: nat, itemSize: nat)
    requires slot < n && Area(n, itemSize) < WORD
    ensures Offset(slot, itemSize) == Area(slot, itemSize) && Area(slot, itemSize) + itemSize <= Area(n, itemSize)
  {
    AreasInOrder(slot, n, itemSize);
    AreaIsProduct(slot, itemSize);
  }

  /** The size queue_create allocates. */
  function BufferSize(itemSize: nat, queueSize: nat): nat {
    (itemSize * queueSize) % WORD
  }

  /** Every slot lies inside the allocated buffer exactly when the product of the
      two sizes does not wrap around: the check queue_create does not make. */
  lemma SlotsInBufferIffNoWrap(itemSize: uint32, queueSize: uint32)
    ensures (forall s: nat :: s < queueSize ==> Offset(s, itemSize) + itemSize <= BufferSize(itemSize, queueSize))
       <==> itemSize * queueSize < WORD
  {
    AreaIsProduct(queueSize, itemSize);
    if Area(queueSize, itemSize) < WORD {
      forall s: nat | s < queueSize
        ensures Offset(s, itemSize) + itemSize <= BufferSize(itemSize, queueSize)
      {
        OffsetIsArea(s, queueSize, itemSize);
      }
    } else {
      var s := LastBelow(queueSize, itemSize);
      AreaIsProduct(s, itemSize);
      assert Offset(s, itemSize) == Area(s, itemSize);
    }
  }

  /** The slot that straddles the 32-bit limit. */
  lemma {:induction false} LastBelow(n: nat, itemSize: nat) returns (s: nat)
    requires Area(n, itemSize) >= WORD
    ensures s < n && Area(s, itemSize) < WORD <= Area(s, itemSize) + itemSize
  {
    if Area(n - 1, itemSize) >= WORD {
      s := LastBelow(n - 1, itemSize);
    } else {
      s := n - 1;
    }
  }

  class ByteQueue {
    const itemSize: uint32
    const queueSize: uint32
    const buffer: array<bv8>
    var head: nat
    var tail: nat
    var count: nat

    ghost predicate Valid()
      reads this
    {
      && buffer.Length == Area(queueSize, itemSize) < WORD
      && count <= queueSize
      && (queueSize == 0 ==> head == tail == 0)
      && (queueSize > 0 ==> head < queueSize && tail == Slot(head, count, queueSize))
    }

    ghost function At(slot: nat): (item: Item)
      requires Valid() && slot < queueSize
      reads this, buffer
      ensures |item| == itemSize
    {
      AreasInOrder(slot, queueSize, itemSize);
      buffer[Area(slot, itemSize)..Area(slot, itemSize) + itemSize]
    }

    ghost function Contents(): (items: seq<Item>)
      requires Valid()
      reads this, buffer
      ensures |items| == count
    {
      seq(count, i requires 0 <= i < count && Valid() reads this, buffer => At(Slot(head, i, queueSize)))
    }

    /** queue_create: the allocation size is a 32-bit product. */
    constructor (itemSize: uint32, queueSize: uint32)
      ensures this.itemSize == itemSize && this.queueSize == queueSize && fresh(buffer)
      ensures itemSize * queueSize < WORD <==> Valid()
      ensures Valid() ==> Contents() == []
    {
      this.itemSize, this.queueSize := itemSize, queueSize;
      buffer := new bv8[BufferSize(itemSize, queueSize)];
      head, tail, count := 0, 0, 0;
      AreaIsProduct(queueSize, itemSize);
    }

    /** queue_send with the lock held: false means the caller has to wait. */
    method SendPass(item: Item) returns (sent: bool)
      requires Valid() && |item| == itemSize
      modifies this`tail, this`count, buffer
      ensures Valid() && sent == (old(count) < queueSize)
      ensures Some(Contents()) == if sent then Put(old(Contents()), queueSize, item) else Some(old(Contents()))
    {
      if count == queueSize {
        return false;
      }
      Copy(tail, item);
      forall i | 0 <= i < count
        ensures At(Slot(head, i, queueSize)) == old(At(Slot(head, i, queueSize)))
      {
        SlotsDistinct(head, i, count, queueSize);
      }
      tail := Next(tail, queueSize);
      count := count + 1;
      assert Contents() == old(Contents()) + [item];
      return true;
    }

    method WriteBytes(offset: nat, item: Item)
      requires offset + |item| <= buffer.Length
      modifies buffer
      ensures buffer[offset..offset + |item|] == item
      ensures forall k :: 0 <= k < buffer.Length && !(offset <= k < offset + |item|) ==> buffer[k] == old(buffer[k])
    {
      forall k | 0 <= k < |item| {
        buffer[offset + k] := item[k];
      }
    }

    /** The memcpy into a slot: no other slot is touched. */
    method Copy(slot: nat, item: Item)
      requires Valid() && |item| == itemSize && slot < queueSize
      modifies buffer
      ensures At(slot) == item
      ensures forall s: nat :: s < queueSize && s != slot ==> At(s) == old(At(s))
    {
      OffsetIsArea(slot, queueSize, itemSize);
      WriteBytes(Offset(slot, itemSize), item);
      forall s: nat | s < queueSize && s != slot
        ensures At(s) == old(At(s))
      {
        AreasInOrder(s, queueSize, itemSize);
        AreasInOrder(if s < slot then s else slot, if s < slot then slot else s, itemSize);
        var o := Area(s, itemSize);
        assert buffer[o..o + itemSize] == old(buffer[o..o + itemSize]);
      }
    }

    /** queue_recv past its waiting loop, with the lock held: None is the -1 return. */
    method RecvPass() returns (r: Option<Item>)
      requires Valid()
      modifies this`head, this`count
      ensures Valid()
      ensures match Take(old(Contents()))
              case Some((item, rest)) => r == Some(item) && Contents() == rest
              case None => r == None && Contents() == old(Contents())
    {
      if count == 0 {
        return None;
      }
      OffsetIsArea(head, queueSize, itemSize);
      var offset := Offset(head, itemSize);
      r := Some(buffer[offset..offset + itemSize]);
      head := Next(head, queueSize);
      count := count - 1;
      assert forall i :: 0 <= i < count ==> Slot(head, i, queueSize) == Slot(old(head), i + 1, queueSize);
      assert Contents() == old(Contents())[1..];
    }

    /** queue_reset. */
    method Reset()
      requires Valid()
      modifies this`head, this`tail, this`count, buffer
      ensures Valid() && Contents() == [] && head == tail == 0
      ensures forall k :: 0 <= k < buffer.Length ==> buffer[k] == 0
    {
      head, tail, count := 0, 0, 0;
      forall k | 0 <= k < buffer.Length {
        buffer[k] := 0;
      }
    }
  }
}

/** A fixed-capacity circular FIFO queue over a caller-supplied byte buffer
    (queue.c). The queue borrows the buffer, never allocates, and reports the
    outcome of every operation as a status.

    The three operations are module-level methods that take the queue as a
    possibly-null reference, as the C functions take a possibly-null
    `queue_t *`; buffers are possibly-null byte arrays for the same reason. */
module RingQueue {
  import Slots

  /** Unsigned 32-bit integers: the width of `size`, `head`, `tail` and
      `count` in `queue_t`. */
  type u32 = x: int | 0 <= x < 0x1_0000_0000

  /** The status codes that queue.c returns. */
  datatype Status = Ok | Full | Empty | Error | BufferError

  /** The state of one `queue_t`. */
  class Queue {
    var buffer: array?<bv8>
    var size: u32
    var elementSize: nat
    var head: u32
    var tail: u32
    var count: u32

    /** The elements the queue holds, oldest first. */
    ghost var Contents: seq<seq<bv8>>

    /** A queue is bound once it has a buffer and a non-zero size; the
        enqueue and dequeue checks at queue.c:72 and queue.c:104 refuse to
        touch an unbound one. */
    predicate Bound()
      reads this
    {
      buffer != null && size != 0
    }

    /** The object invariant. An unbound queue holds nothing. A bound queue
        has a non-zero element size, a buffer that holds all `size` slots of
        `elementSize` bytes at the offsets the code computes (that is,
        `size * elementSize` bytes, see Slots.OffsetIsProduct), consistent slot
        bookkeeping, and Contents equal to the slots from `head` on. */
    ghost predicate Valid()
      reads this, buffer
    {
      if !Bound() then Contents == []
      else
        elementSize > 0 && Slots.Offset(size, elementSize) <= buffer.Length &&
        Slots.IndexInv(size, head, tail, count) &&
        Contents == Slots.Elements(buffer[..], elementSize, size, head, count)
    }

    /** A zero-filled `queue_t` (as a `static` one starts out): no buffer,
        every counter 0. */
    constructor Zeroed()
      ensures Valid() && !Bound() && Contents == []
      ensures buffer == null && size == 0 && elementSize == 0
      ensures head == 0 && tail == 0 && count == 0
    {
      buffer := null;
      size, elementSize := 0, 0;
      head, tail, count := 0, 0, 0;
      Contents := [];
    }

    /** The accepted path of `queue_enqueue` (queue.c:82-84), on a bound
        queue that is not full: the element's bytes go into slot `tail`,
        `tail` advances modulo `size` and `count` grows by one, so the
        element joins the back of the queue. `head` and every byte outside
        slot `tail` are left alone. */
    method Put(e: seq<bv8>)
      requires Valid() && Bound() && count < size && |e| == elementSize
      modifies this, buffer
      ensures Valid() && Bound()
      ensures buffer == old(buffer) && size == old(size) && elementSize == old(elementSize)
      ensures buffer[..] == Slots.WriteSlot(old(buffer[..]), elementSize, size, old(tail), e)
      ensures tail == (old(tail) + 1) % size && count == old(count) + 1 && head == old(head)
      ensures Contents == old(Contents) + [e]
    {
      ghost var before := buffer[..];
      var off := tail * elementSize;
      Slots.OffsetIsProduct(tail, elementSize);
      Slots.SlotFits(tail, size, elementSize);
      CopyIn(buffer, off, e);
      Slots.EnqueueStep(before, elementSize, size, head, tail, count, e);
      tail := (tail + 1) % size;
      count := count + 1;
      Contents := Contents + [e];
    }

    /** The accepted path of `queue_dequeue` (queue.c:114-116), on a bound
        queue that is not empty: the bytes of slot `head`, the oldest
        element, go into the front of `data`, `head` advances modulo `size`
        and `count` shrinks by one. The buffer, the vacated slot included,
        and `tail` are left alone. */
    method Take(data: array<bv8>)
      requires Valid() && Bound() && count > 0
      requires elementSize <= data.Length && data != buffer
      modifies this, data
      ensures Valid() && Bound()
      ensures buffer == old(buffer) && size == old(size) && elementSize == old(elementSize)
      ensures unchanged(buffer)
      ensures data[..elementSize] == old(Contents[0])
      ensures data[elementSize..] == old(data[elementSize..])
      ensures head == (old(head) + 1) % size && count == old(count) - 1 && tail == old(tail)
      ensures Contents == old(Contents[1..])
    {
      ghost var bytes := buffer[..];
      ghost var h1, c1 := (head + 1) % size, count - 1;
      var off := head * elementSize;
      Slots.OffsetIsProduct(head, elementSize);
      Slots.SlotFits(head, size, elementSize);
      Slots.DequeueStep(bytes, elementSize, size, head, tail, count);
      ghost var rest := Slots.Elements(bytes, elementSize, size, h1, c1);
      assert rest == Contents[1..];
      assert Contents[0] == bytes[off .. off + elementSize];
      CopyOut(data, buffer, off, elementSize);
      head := (head + 1) % size;
      count := count - 1;
      Contents := rest;
      assert head == h1 && count == c1 && buffer[..] == bytes;
    }
  }

  /** The status `queue_init` returns for a queue reference, a buffer
      reference (each present or null), a byte size and an element size. */
  function InitStatus(queuePresent: bool, bufferPresent: bool, size: nat, elementSize: nat): (st: Status)
  {
    if !queuePresent || !bufferPresent || size == 0 || elementSize == 0 then Error
    else if size < elementSize || size % elementSize != 0 then BufferError
    else Ok
  }

  /** `k` whole elements of `elementSize` bytes fill exactly `size` bytes. */
  predicate WholeSlots(k: nat, elementSize: nat, size: nat)
  {
    1 <= k && Slots.Offset(k, elementSize) == size
  }

  /** With both references present, `queue_init` accepts exactly the sizes
      that hold a positive whole number of elements (queue.c:36-44). */
  lemma InitAcceptsWholeSlots(size: nat, elementSize: nat)
    ensures InitStatus(true, true, size, elementSize) == Ok
        <==> elementSize > 0 && exists k: nat :: WholeSlots(k, elementSize, size)
  {
    if InitStatus(true, true, size, elementSize) == Ok {
      var k := size / elementSize;
      assert size == k * elementSize + size % elementSize;
      Slots.OffsetIsProduct(k, elementSize);
      assert WholeSlots(k, elementSize, size);
    }
    if elementSize > 0 && exists k: nat :: WholeSlots(k, elementSize, size) {
      var k: nat :| WholeSlots(k, elementSize, size);
      Slots.SlotFits(0, k, elementSize);
      Slots.OffsetIsWhole(k, elementSize);
    }
  }

  /** With a buffer of exactly `size` bytes, the size the parameter
      documentation at queue.c:30 describes, an element size above 1 lets the
      code accept an element whose slot lies past the end of the buffer. The
      full test compares `count` with `size` (queue.c:77), a byte count, so
      after `size / elementSize` enqueues into an empty queue (head 0, tail and
      count both `size / elementSize`) the queue is still not full, and the
      next copy (queue.c:82) would end past byte `size`. */
  lemma SlotPastBufferEnd(size: nat, elementSize: nat)
    requires InitStatus(true, true, size, elementSize) == Ok && elementSize > 1
    ensures var k := size / elementSize;
      Slots.IndexInv(size, 0, k, k) && k < size && Slots.Offset(k, elementSize) + elementSize > size
  {
    var k := size / elementSize;
    assert size == k * elementSize + size % elementSize;
    Slots.OffsetIsProduct(k, elementSize);
    assert k >= 1;
    Slots.MulAtLeast(elementSize - 1, k);
    assert k * elementSize == (elementSize - 1) * k + k;
    Slots.ModBelowTwice(k, size);
  }

  /** `queue_init` (queue.c:34-55): on a null queue or buffer or a zero size
      or element size, Error; on a size that is not a positive multiple of
      the element size, BufferError; in both cases the queue is untouched.
      Otherwise it binds the buffer, records both sizes, resets the counters
      and so empties the queue, whatever it held before. */
  method Init(q: Queue?, buffer: array?<bv8>, size: u32, elementSize: nat) returns (st: Status)
    modifies q
    ensures st == InitStatus(q != null, buffer != null, size, elementSize)
    ensures st != Ok && q != null ==> unchanged(q)
    ensures st == Ok ==> q != null && q.Bound()
    ensures st == Ok ==> q.buffer == buffer && q.size == size && q.elementSize == elementSize
    ensures st == Ok ==> q.head == 0 && q.tail == 0 && q.count == 0 && q.Contents == []
    ensures st == Ok ==> (q.Valid() <==> size * elementSize <= buffer.Length)
  {
    if q == null || buffer == null || size == 0 || elementSize == 0 {
      return Error;
    }
    if size < elementSize || size % elementSize != 0 {
      return BufferError;
    }
    q.buffer := buffer;
    q.size := size;
    q.elementSize := elementSize;
    q.head := 0;
    q.tail := 0;
    q.count := 0;
    q.Contents := [];
    Slots.OffsetIsProduct(size, elementSize);
    return Ok;
  }

  /** The `memcpy` into the queue's buffer (queue.c:82): the bytes of `src`
      replace those of `dst` from offset `off` on; all other bytes stay. */
  method CopyIn(dst: array<bv8>, off: nat, src: seq<bv8>)
    requires off + |src| <= dst.Length
    modifies dst
    ensures dst[..] == old(dst[..off]) + src + old(dst[off + |src|..])
  {
    forall i | 0 <= i < |src| {
      dst[off + i] := src[i];
    }
    assert dst[..] == old(dst[..off]) + src + old(dst[off + |src|..]) by {
      forall j | 0 <= j < dst.Length
        ensures dst[j] == (old(dst[..off]) + src + old(dst[off + |src|..]))[j]
      {
        if off <= j < off + |src| {
          assert dst[off + (j - off)] == src[j - off];
        }
      }
    }
  }

  /** The `memcpy` out of the queue's buffer (queue.c:114): the first `n`
      bytes of `dst` become the `n` bytes of `src` from offset `off` on; the
      rest of `dst` stays. */
  method CopyOut(dst: array<bv8>, src: array<bv8>, off: nat, n: nat)
    requires off + n <= src.Length && n <= dst.Length && dst != src
    modifies dst
    ensures dst[..n] == src[off..off + n]
    ensures dst[n..] == old(dst[n..])
  {
    forall i | 0 <= i < n {
      dst[i] := src[off + i];
    }
  }

  /** `queue_enqueue` (queue.c:65-87): on a null queue or data, or an unbound
      queue, Error; on a full queue (`count == size`), Full; in both cases
      nothing changes. Otherwise it copies the element's `elementSize` bytes
      into slot `tail`, advances `tail` modulo `size` and increments `count`:
      the element joins the back of the queue. */
  method Enqueue(q: Queue?, data: array?<bv8>) returns (st: Status)
    requires q != null ==> q.Valid()
    requires q != null && data != null && q.Bound() ==> q.elementSize <= data.Length
    modifies q, if q != null then {q.buffer} else {}
    ensures q != null ==> q.Valid()
    ensures q != null ==> q.buffer == old(q.buffer) && q.size == old(q.size) && q.elementSize == old(q.elementSize)
    ensures q == null || data == null ==> st == Error
    ensures q != null && data != null && !q.Bound() ==> st == Error
    ensures q != null && data != null && q.Bound() ==> (st == Full <==> old(q.count) == q.size)
    ensures q != null && data != null && q.Bound() && old(q.count) < q.size ==> st == Ok
    ensures st != Ok && q != null ==> unchanged(q) && (q.buffer != null ==> unchanged(q.buffer))
    ensures st == Ok ==> q != null && data != null && q.Bound()
    ensures st == Ok ==> q.buffer[..] == Slots.WriteSlot(old(q.buffer[..]), q.elementSize, q.size, old(q.tail), old(data[..q.elementSize]))
    ensures st == Ok ==> q.tail == (old(q.tail) + 1) % q.size && q.count == old(q.count) + 1 && q.head == old(q.head)
    ensures st == Ok ==> q.Contents == old(q.Contents) + [old(data[..q.elementSize])]
  {
    if q == null || data == null {
      return Error;
    }
    if q.buffer == null || q.size == 0 {
      return Error;
    }
    if q.count == q.size {
      return Full;
    }
    q.Put(data[..q.elementSize]);
    return Ok;
  }

  /** `queue_dequeue` (queue.c:97-119): on a null queue or destination, or an
      unbound queue, Error; on an empty queue (`count == 0`), Empty; in both
      cases neither the queue nor the destination changes. Otherwise it
      copies the `elementSize` bytes of slot `head` into the destination,
      advances `head` modulo `size` and decrements `count`: the oldest
      element leaves the queue. The buffer, and so the vacated slot's bytes,
      stays as it was. */
  method Dequeue(q: Queue?, data: array?<bv8>) returns (st: Status)
    requires q != null ==> q.Valid()
    requires q != null && data != null && q.Bound() ==> q.elementSize <= data.Length && data != q.buffer
    modifies q, data
    ensures q != null ==> q.Valid()
    ensures q != null ==> q.buffer == old(q.buffer) && q.size == old(q.size) && q.elementSize == old(q.elementSize)
    ensures q != null && q.buffer != null ==> unchanged(q.buffer)
    ensures q == null || data == null ==> st == Error
    ensures q != null && data != null && !q.Bound() ==> st == Error
    ensures q != null && data != null && q.Bound() ==> (st == Empty <==> old(q.count) == 0)
    ensures q != null && data != null && q.Bound() && old(q.count) > 0 ==> st == Ok
    ensures st != Ok ==> (q != null ==> unchanged(q)) && (data != null ==> unchanged(data))
    ensures st == Ok ==> q != null && data != null && q.Bound() && old(q.Contents) != []
    ensures st == Ok ==> data[..q.elementSize] == old(q.Contents[0])
    ensures st == Ok ==> data[q.elementSize..] == old(data[q.elementSize..])
    ensures st == Ok ==> q.head == (old(q.head) + 1) % q.size && q.count == old(q.count) - 1 && q.tail == old(q.tail)
    ensures st == Ok ==> q.Contents == old(q.Contents[1..])
  {
    if q == null || data == null {
      return Error;
    }
    if q.buffer == null || q.size == 0 {
      return Error;
    }
    if q.count == 0 {
      return Empty;
    }
    q.Take(data);
    return Ok;
  }
}

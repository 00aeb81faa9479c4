/** The byte layout and index arithmetic of the circular queue.

    The queue treats its backing buffer as `size` slots of `es` bytes each:
    slot `k` starts at byte offset `k * es` (queue.c:82, 114), and the slot
    indexes `head` and `tail` advance modulo `size` (queue.c:83, 115). This
    module states that layout on plain values; the class in module RingQueue
    keeps its array and counters in step with it. */
module Slots {

  /** The byte offset of slot `k`: `k` elements of `es` bytes precede it.
      Defined by adding one element at a time, so that the layout proofs
      stay linear; OffsetIsProduct ties it to the product the code computes. */
  function Offset(k: nat, es: nat): (r: nat)
  {
    if k == 0 then 0 else Offset(k - 1, es) + es
  }

  /** The offset of slot `k` is the product `k * es` that queue.c:82 and
      queue.c:114 compute. */
  lemma {:induction false} OffsetIsProduct(k: nat, es: nat)
    ensures Offset(k, es) == k * es
  {
    if k > 0 {
      OffsetIsProduct(k - 1, es);
      assert k * es == (k - 1) * es + es;
    }
  }

  /** Slot `k` ends no later than slot `n` starts, for every `k` below `n`: the
      slots below `n` lie inside the first `Offset(n, es)` bytes, and two
      different slots never overlap. */
  lemma {:induction false} SlotFits(k: nat, n: nat, es: nat)
    requires k < n
    ensures Offset(k, es) + es <= Offset(n, es)
    decreases n
  {
    if k < n - 1 {
      SlotFits(k, n - 1, es);
    }
  }

  /** The `es` bytes of slot `k` (the source range of the dequeue copy,
      queue.c:114). */
  function ReadSlot(bytes: seq<bv8>, es: nat, size: nat, k: nat): (r: seq<bv8>)
    requires k < size && Offset(size, es) <= |bytes|
  {
    SlotFits(k, size, es);
    bytes[Offset(k, es) .. Offset(k, es) + es]
  }

  /** `bytes` with slot `k` overwritten by the element `e` (the enqueue copy,
      queue.c:82). Reading slot `k` back gives `e`, and every byte outside the
      slot keeps its value. */
  function WriteSlot(bytes: seq<bv8>, es: nat, size: nat, k: nat, e: seq<bv8>): (r: seq<bv8>)
    requires k < size && Offset(size, es) <= |bytes| && |e| == es
    ensures |r| == |bytes|
    ensures ReadSlot(r, es, size, k) == e
    ensures forall j :: 0 <= j < |bytes| && !(Offset(k, es) <= j < Offset(k, es) + es) ==> r[j] == bytes[j]
  {
    SlotFits(k, size, es);
    bytes[..Offset(k, es)] + e + bytes[Offset(k, es) + es..]
  }

  /** With one-byte elements, writing slot `k` is storing one byte at index
      `k`. */
  lemma WriteByteSlot(bytes: seq<bv8>, size: nat, k: nat, v: bv8)
    requires k < size && Offset(size, 1) <= |bytes|
    ensures k < |bytes| && WriteSlot(bytes, 1, size, k, [v]) == bytes[k := v]
  {
    OffsetIsProduct(k, 1);
    SlotFits(k, size, 1);
    var r := WriteSlot(bytes, 1, size, k, [v]);
    assert r == bytes[..k] + [v] + bytes[k + 1..];
    forall j | 0 <= j < |bytes|
      ensures r[j] == bytes[k := v][j]
    {
      if j < k { assert r[j] == bytes[..k][j]; }
    }
  }

  /** Writing one slot leaves every other slot as it was. */
  lemma ReadOtherSlot(bytes: seq<bv8>, es: nat, size: nat, k: nat, j: nat, e: seq<bv8>)
    requires k < size && j < size && j != k
    requires Offset(size, es) <= |bytes| && |e| == es
    ensures ReadSlot(WriteSlot(bytes, es, size, k, e), es, size, j) == ReadSlot(bytes, es, size, j)
  {
    SlotFits(j, size, es);
    if j < k { SlotFits(j, k, es); } else { SlotFits(k, j, es); }
    var r := WriteSlot(bytes, es, size, k, e);
    var off := Offset(j, es);
    forall m | 0 <= m < es
      ensures ReadSlot(r, es, size, j)[m] == ReadSlot(bytes, es, size, j)[m]
    {
      assert r[off + m] == bytes[off + m];
    }
  }

  /** A value in `[0, 2 * n)` reduced modulo `n`. */
  lemma ModBelowTwice(x: nat, n: nat)
    requires 0 < n && x < 2 * n
    ensures x % n == if x < n then x else x - n
  {
    if x >= n {
      assert x == 1 * n + (x - n);
    }
  }

  /** The bookkeeping the queue keeps over its slot indexes: `head` and `tail`
      are slots, at most `size` elements are held, and the free slot `tail`
      follows the `count` occupied ones that start at `head`. */
  predicate IndexInv(size: nat, head: nat, tail: nat, count: nat)
  {
    0 < size && head < size && tail < size && count <= size && tail == (head + count) % size
  }

  /** An accepted enqueue (count below size) keeps the bookkeeping: tail
      advances by one slot, modulo size, and count grows by one
      (queue.c:77, 83-84). */
  lemma EnqueueKeepsIndexInv(size: nat, head: nat, tail: nat, count: nat)
    requires IndexInv(size, head, tail, count) && count < size
    ensures IndexInv(size, head, (tail + 1) % size, count + 1)
  {
    ModBelowTwice(head + count, size);
    ModBelowTwice(tail + 1, size);
    ModBelowTwice(head + count + 1, size);
  }

  /** An accepted dequeue (count positive) keeps the bookkeeping: head
      advances by one slot, modulo size, and count shrinks by one
      (queue.c:109, 115-116). */
  lemma DequeueKeepsIndexInv(size: nat, head: nat, tail: nat, count: nat)
    requires IndexInv(size, head, tail, count) && count > 0
    ensures IndexInv(size, (head + 1) % size, tail, count - 1)
  {
    ModBelowTwice(head + 1, size);
    ModBelowTwice(head + count, size);
    ModBelowTwice((head + 1) % size + count - 1, size);
  }

  /** Position `i` of the run that starts at `head` is position `i - 1` of the
      run that starts one slot later. */
  lemma ShiftIndex(size: nat, head: nat, i: nat)
    requires head < size && 0 < i <= size
    ensures ((head + 1) % size + (i - 1)) % size == (head + i) % size
  {
    ModBelowTwice(head + 1, size);
    ModBelowTwice((head + 1) % size + (i - 1), size);
    ModBelowTwice(head + i, size);
  }

  /** The elements held in the buffer, oldest first: the `count` slots that
      start at slot `head` and wrap around after slot `size - 1`. Element `i`
      is the slot `(head + i) % size`. */
  function Elements(bytes: seq<bv8>, es: nat, size: nat, head: nat, count: nat): (r: seq<seq<bv8>>)
    requires head < size && count <= size && Offset(size, es) <= |bytes|
    ensures |r| == count
    ensures forall i :: 0 <= i < count ==> r[i] == ReadSlot(bytes, es, size, (head + i) % size)
    decreases count
  {
    if count == 0 then []
    else
      var next := (head + 1) % size;
      var rest := Elements(bytes, es, size, next, count - 1);
      var r := [ReadSlot(bytes, es, size, head)] + rest;
      assert r[0] == ReadSlot(bytes, es, size, (head + 0) % size) by {
        ModBelowTwice(head, size);
      }
      assert forall i :: 0 < i < count ==> r[i] == ReadSlot(bytes, es, size, (head + i) % size) by {
        forall i | 0 < i < count ensures r[i] == ReadSlot(bytes, es, size, (head + i) % size) {
          ShiftIndex(size, head, i);
          assert r[i] == rest[i - 1];
        }
      }
      r
  }

  /** Two positions of the occupied run name different slots, because fewer
      than `size` slots are occupied. */
  lemma RunSlotsDistinct(size: nat, head: nat, i: nat, count: nat)
    requires head < size && i < count < size
    ensures (head + i) % size != (head + count) % size
  {
    ModBelowTwice(head + i, size);
    ModBelowTwice(head + count, size);
  }

  /** Writing an element into the free slot that follows the occupied run
      appends it to the held elements (queue.c:82-84). */
  lemma ElementsAfterWrite(bytes: seq<bv8>, es: nat, size: nat, head: nat, count: nat, e: seq<bv8>)
    requires head < size && count < size && Offset(size, es) <= |bytes| && |e| == es
    ensures Elements(WriteSlot(bytes, es, size, (head + count) % size, e), es, size, head, count + 1)
         == Elements(bytes, es, size, head, count) + [e]
  {
    var t := (head + count) % size;
    var w := WriteSlot(bytes, es, size, t, e);
    var after := Elements(w, es, size, head, count + 1);
    var before := Elements(bytes, es, size, head, count);
    forall i | 0 <= i < count
      ensures after[i] == before[i]
    {
      RunSlotsDistinct(size, head, i, count);
      ReadOtherSlot(bytes, es, size, t, (head + i) % size, e);
    }
    assert after[count] == e;
  }

  /** Advancing `head` past the oldest slot drops exactly the oldest element;
      the bytes themselves are left as they are (queue.c:114-116). */
  lemma ElementsAfterAdvance(bytes: seq<bv8>, es: nat, size: nat, head: nat, count: nat)
    requires head < size && 0 < count <= size && Offset(size, es) <= |bytes|
    ensures Elements(bytes, es, size, (head + 1) % size, count - 1)
         == Elements(bytes, es, size, head, count)[1..]
  {
  }

  /** One accepted enqueue, on values: when the held elements are the run
      from `head` and fewer than `size` are held, writing `e` into slot
      `tail` and advancing `tail` and `count` keeps the bookkeeping and
      appends `e` (queue.c:77-84). */
  lemma EnqueueStep(bytes: seq<bv8>, es: nat, size: nat, head: nat, tail: nat, count: nat, e: seq<bv8>)
    requires IndexInv(size, head, tail, count) && count < size
    requires Offset(size, es) <= |bytes| && |e| == es
    ensures IndexInv(size, head, (tail + 1) % size, count + 1)
    ensures Elements(WriteSlot(bytes, es, size, tail, e), es, size, head, count + 1)
         == Elements(bytes, es, size, head, count) + [e]
  {
    EnqueueKeepsIndexInv(size, head, tail, count);
    ElementsAfterWrite(bytes, es, size, head, count, e);
  }

  /** One accepted dequeue, on values: when at least one element is held,
      the oldest is the slot at `head`, and advancing `head` and shrinking
      `count` keeps the bookkeeping and drops exactly that element
      (queue.c:109-116). */
  lemma DequeueStep(bytes: seq<bv8>, es: nat, size: nat, head: nat, tail: nat, count: nat)
    requires IndexInv(size, head, tail, count) && count > 0
    requires Offset(size, es) <= |bytes|
    ensures IndexInv(size, (head + 1) % size, tail, count - 1)
    ensures Elements(bytes, es, size, head, count)[0] == ReadSlot(bytes, es, size, head)
    ensures Elements(bytes, es, size, (head + 1) % size, count - 1)
         == Elements(bytes, es, size, head, count)[1..]
  {
    DequeueKeepsIndexInv(size, head, tail, count);
    ModBelowTwice(head, size);
    ElementsAfterAdvance(bytes, es, size, head, count);
  }

  /** A positive number of elements weighs at least one element's bytes. */
  lemma {:induction false} MulAtLeast(d: nat, n: nat)
    requires d >= 1
    ensures d * n >= n
    decreases d
  {
    if d > 1 {
      assert d * n == (d - 1) * n + n;
      MulAtLeast(d - 1, n);
    }
  }

  /** Euclidean division has one remainder: `x == q * n + r` with
      `0 <= r < n` fixes `x % n` as `r`. */
  lemma ModUnique(x: int, n: nat, q: int, r: int)
    requires n > 0 && 0 <= r < n && x == q * n + r
    ensures x % n == r
  {
    var q0, r0 := x / n, x % n;
    assert x == q0 * n + r0;
    if q > q0 {
      assert (q - q0) * n == r0 - r;
      MulAtLeast(q - q0, n);
    } else if q < q0 {
      assert (q0 - q) * n == r - r0;
      MulAtLeast(q0 - q, n);
    }
  }

  /** Every slot offset is a whole number of elements: it leaves no remainder
      modulo the element size. */
  lemma {:induction false} OffsetIsWhole(k: nat, es: nat)
    requires es > 0
    ensures Offset(k, es) % es == 0
  {
    if k == 0 {
      ModUnique(0, es, 0, 0);
    } else {
      var x := Offset(k - 1, es);
      OffsetIsWhole(k - 1, es);
      assert x == (x / es) * es;
      assert x + es == (x / es + 1) * es + 0;
      ModUnique(x + es, es, x / es + 1, 0);
    }
  }
}

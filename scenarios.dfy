/** Clients of the queue that replay the repository's test cases and further
    behaviours of queue.c: FIFO order, the capacity and empty boundaries,
    wraparound, re-initialisation and multi-byte records. Each is proved
    from the contracts of module RingQueue alone.

    The tests call a byte-at-a-time interface (`queue_enqueue(&queue, 1)`,
    `queue_dequeue(&queue, &item)`); Push and Pop below pass that byte as a
    one-byte array to the element-size-1 queue. */
module QueueScenarios {
  import opened RingQueue
  import Slots

  /** A one-byte element holding `v`. */
  method Byte(v: bv8) returns (d: array<bv8>)
    ensures fresh(d) && d[..] == [v]
  {
    d := new bv8[1];
    d[0] := v;
  }

  /** A fresh queue bound to a fresh buffer of `n` one-byte slots. */
  method ByteQueue(n: u32) returns (q: Queue, st: Status)
    requires n > 0
    ensures fresh(q) && fresh(q.buffer)
    ensures st == Ok && q.Valid() && q.Bound() && q.Contents == []
    ensures q.size == n && q.elementSize == 1 && q.buffer.Length == n
    ensures q.head == 0 && q.tail == 0 && q.count == 0
  {
    q := new Queue.Zeroed();
    var buffer := new bv8[n];
    st := Init(q, buffer, n, 1);
  }

  /** Enqueue the byte `v` into a byte queue. Unless the queue is full, `v`
      goes into buffer byte `tail`, `tail` advances and `v` joins the back;
      on a full queue nothing changes. */
  method Push(q: Queue, v: bv8) returns (st: Status)
    requires q.Valid() && q.Bound() && q.elementSize == 1
    modifies q, q.buffer
    ensures q.Valid() && q.Bound() && q.elementSize == 1
    ensures q.buffer == old(q.buffer) && q.size == old(q.size)
    ensures q.count as int == |q.Contents|
    ensures old(q.count) < q.size ==> st == Ok && q.Contents == old(q.Contents) + [[v]]
    ensures old(q.count) < q.size ==> q.tail == (old(q.tail) + 1) % q.size && q.head == old(q.head)
    ensures old(q.count) < q.size ==> old(q.tail) < q.buffer.Length && q.buffer[..] == old(q.buffer[..])[old(q.tail) := v]
    ensures old(q.count) == q.size ==> st == Full && unchanged(q) && unchanged(q.buffer)
  {
    var d := Byte(v);
    assert d[..1] == [v];
    if q.count < q.size {
      Slots.WriteByteSlot(q.buffer[..], q.size, q.tail, v);
    }
    st := Enqueue(q, d);
  }

  /** Dequeue one byte from a byte queue into a destination that held
      `item`: the front byte, with `head` advanced, or `item` unchanged and
      the queue untouched if the queue is empty. The buffer never changes. */
  method Pop(q: Queue, item: bv8) returns (st: Status, v: bv8)
    requires q.Valid() && q.Bound() && q.elementSize == 1
    modifies q
    ensures q.Valid() && q.Bound() && q.elementSize == 1
    ensures q.buffer == old(q.buffer) && q.size == old(q.size)
    ensures q.count as int == |q.Contents|
    ensures old(q.count) > 0 ==> st == Ok && [v] == old(q.Contents[0]) && q.Contents == old(q.Contents[1..])
    ensures old(q.count) > 0 ==> q.head == (old(q.head) + 1) % q.size && q.tail == old(q.tail)
    ensures old(q.count) == 0 ==> st == Empty && v == item && unchanged(q)
  {
    var out := Byte(item);
    st := Dequeue(q, out);
    v := out[0];
  }

  /** Initialising with a ten-byte buffer succeeds (test/test_queue.cpp:5-9). */
  method InitializationScenario() returns (st: Status, count: nat)
    ensures st == Ok && count == 0
  {
    var q;
    q, st := ByteQueue(10);
    count := q.count;
  }

  /** One enqueue writes the byte into slot 0 of the buffer
      (test/test_queue.cpp:11-17). */
  method EnqueueScenario() returns (st: Status, first: bv8)
    ensures st == Ok && first == 1
  {
    var q, _ := ByteQueue(10);
    var d := Byte(1);
    st := Enqueue(q, d);
    assert q.buffer[..][0..1] == [1];
    first := q.buffer[0];
  }

  /** A dequeue returns the byte enqueued before it
      (test/test_queue.cpp:19-27). */
  method DequeueScenario() returns (st: Status, item: bv8)
    ensures st == Ok && item == 1
  {
    var q, _ := ByteQueue(10);
    var _ := Push(q, 1);
    st, item := Pop(q, 0);
  }

  /** Ten enqueues into a ten-slot queue succeed and the eleventh reports
      Full without changing the queue (test/test_queue.cpp:29-37). */
  method FullScenario() returns (statuses: seq<Status>, last: Status, held: nat)
    ensures |statuses| == 10 && forall i :: 0 <= i < 10 ==> statuses[i] == Ok
    ensures last == Full && held == 10
  {
    var q, _ := ByteQueue(10);
    statuses := [];
    var i: bv8 := 0;
    while i < 10
      invariant 0 <= i <= 10
      invariant fresh(q) && fresh(q.buffer)
      invariant q.Valid() && q.Bound() && q.size == 10 && q.elementSize == 1
      invariant q.count as int == |q.Contents| == i as int
      invariant |statuses| == i as int && forall j :: 0 <= j < |statuses| ==> statuses[j] == Ok
    {
      var st := Push(q, i);
      statuses := statuses + [st];
      i := i + 1;
    }
    last := Push(q, 10);
    held := q.count;
  }

  /** A dequeue from a freshly initialised queue reports Empty and leaves the
      destination as it was (test/test_queue.cpp:39-45). */
  method EmptyScenario() returns (st: Status, item: bv8)
    ensures st == Empty && item == 0
  {
    var q, _ := ByteQueue(10);
    st, item := Pop(q, 0);
  }

  /** Null references and a zero size are reported as Error; the same calls
      with real arguments succeed (test/test_queue.cpp:47-59). */
  method NullScenario() returns (statuses: seq<Status>)
    ensures statuses == [Error, Error, Error, Ok, Error, Ok, Error, Ok]
  {
    var buffer := new bv8[10];
    var q := new Queue.Zeroed();
    var s0 := Init(null, buffer, 10, 1);
    var s1 := Init(q, null, 10, 1);
    var s2 := Init(q, buffer, 0, 1);
    var s3 := Init(q, buffer, 10, 1);
    var d := Byte(1);
    var s4 := Enqueue(null, d);
    var s5 := Enqueue(q, d);
    var out := Byte(0);
    var s6 := Dequeue(null, out);
    var s7 := Dequeue(q, out);
    statuses := [s0, s1, s2, s3, s4, s5, s6, s7];
  }

  /** A 15-byte buffer cannot hold a whole number of 4-byte elements, so
      initialisation reports BufferError and leaves the queue unbound; a size
      smaller than one element does too. */
  method BufferErrorScenario() returns (odd: Status, small: Status, bound: bool)
    ensures odd == BufferError && small == BufferError && !bound
  {
    var q := new Queue.Zeroed();
    var buffer := new bv8[15];
    odd := Init(q, buffer, 15, 4);
    small := Init(q, buffer, 2, 4);
    bound := q.Bound();
  }

  /** With three slots, values cycle through reused slots in FIFO order:
      enqueue 1, 2, 3; dequeue; enqueue 4 into the freed slot 0; dequeue the
      rest. */
  method WraparoundScenario() returns (outs: seq<bv8>)
    ensures outs == [1, 2, 3, 4]
  {
    var q, _ := ByteQueue(3);
    var a := FillAndWrap(q);
    var _, b := Pop(q, 0);
    var _, c := Pop(q, 0);
    var _, d := Pop(q, 0);
    outs := [a, b, c, d];
  }

  /** The first half of WraparoundScenario: fill the three slots, take the
      oldest byte out, and put a fourth byte into the slot it freed. The
      fourth byte lands in slot 0 again, and both indexes stand at slot 1. */
  method FillAndWrap(q: Queue) returns (a: bv8)
    requires q.Valid() && q.Bound() && q.size == 3 && q.elementSize == 1 && q.Contents == []
    requires q.head == 0 && q.tail == 0 && q.buffer.Length == 3
    modifies q, q.buffer
    ensures q.Valid() && q.Bound() && q.size == 3 && q.elementSize == 1
    ensures a == 1 && q.Contents == [[2], [3], [4]]
    ensures q.head == 1 && q.tail == 1 && q.buffer[..] == [4, 2, 3]
  {
    Fill(q);
    var _, first := Pop(q, 0);
    var _ := Push(q, 4);
    a := first;
  }

  /** Fill the three slots with 1, 2 and 3: the tail wraps back to slot 0. */
  method Fill(q: Queue)
    requires q.Valid() && q.Bound() && q.size == 3 && q.elementSize == 1 && q.Contents == []
    requires q.head == 0 && q.tail == 0 && q.buffer.Length == 3
    modifies q, q.buffer
    ensures q.Valid() && q.Bound() && q.size == 3 && q.elementSize == 1
    ensures q.buffer == old(q.buffer) && q.Contents == [[1], [2], [3]]
    ensures q.head == 0 && q.tail == 0 && q.buffer[..] == [1, 2, 3]
  {
    var _ := Push(q, 1);
    var _ := Push(q, 2);
    var _ := Push(q, 3);
  }

  /** Re-initialising a used queue onto its own buffer empties it: afterwards
      a dequeue sees only what was enqueued after the re-initialisation,
      although the old byte 2 is still in the buffer. */
  method ReinitScenario() returns (st: Status, item: bv8, afterwards: Status, stale: bv8)
    ensures st == Ok && item == 9 && afterwards == Empty && stale == 2
  {
    var q, _ := ByteQueue(4);
    var _ := Push(q, 1);
    var _ := Push(q, 2);
    var buffer := q.buffer;
    var _ := Init(q, buffer, 4, 1);
    var _ := Push(q, 9);
    st, item := Pop(q, 0);
    var last;
    afterwards, last := Pop(q, 0);
    stale := q.buffer[1];
  }

  /** A four-byte record comes back byte for byte. The buffer holds `size`
      slots of four bytes, which is what the code's offsets need. */
  method RecordRoundTripScenario(r: seq<bv8>) returns (st: Status, back: seq<bv8>)
    requires |r| == 4
    ensures st == Ok && back == r
  {
    var q := new Queue.Zeroed();
    var buffer := new bv8[32];
    var _ := Init(q, buffer, 8, 4);
    assert q.Valid() && q.Bound() && q.Contents == [] && q.elementSize == 4;
    var d := new bv8[4];
    d[0], d[1], d[2], d[3] := r[0], r[1], r[2], r[3];
    assert d[..4] == r;
    var _ := Enqueue(q, d);
    assert q.Contents == [r];
    var out := new bv8[4];
    st := Dequeue(q, out);
    back := out[..];
  }
}

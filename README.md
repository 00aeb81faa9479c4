# Circular byte queue

This project models the fixed-capacity circular FIFO queue of `queue.c`. The
queue borrows a caller-supplied byte buffer and never allocates. It treats the
buffer as a row of slots of `element_size` bytes each, and it keeps three
counters:

- `head` is the slot of the oldest element;
- `tail` is the next free slot;
- `count` is the number of elements held.

It has three operations, and each one returns a status:

- `queue_init` validates its arguments, binds the buffer and resets the counters;
- `queue_enqueue` copies one element into slot `tail`;
- `queue_dequeue` copies slot `head` out.

The model has three modules:

- `Slots` (slots.dfy) states the byte layout and the index arithmetic on plain
  values. `Offset(k, es)` is the byte offset of slot `k`. `ReadSlot` and
  `WriteSlot` read and write one slot. `IndexInv` is the bookkeeping
  invariant. `Elements` is the abstraction function: the sequence of elements
  held, oldest first, read from the buffer bytes.
- `RingQueue` (queue.dfy) holds `queue_t` as the class `Queue`:
  - fields `buffer`, `size`, `elementSize`, `head`, `tail` and `count`;
  - a ghost `Contents: seq<seq<bv8>>`;
  - the invariant `Valid()`, which ties `Contents` to
    `Slots.Elements(buffer[..], ...)`.

  The three C functions are the methods `Init`, `Enqueue` and `Dequeue`. They
  take a possibly-null `Queue?` and possibly-null `array?<bv8>` buffers, so
  every null-pointer branch of the C code is modelled. `memcpy` is `CopyIn` /
  `CopyOut`.
- `QueueScenarios` (scenarios.dfy) replays the repository's test cases and a
  few further behaviours as client methods. Each one is proved from the
  `RingQueue` contracts alone.

The status type has five values: `Ok`, `Full`, `Empty`, `Error` and
`BufferError`. These are the five values `queue.c` returns. The enum in
`queue.h` (queue.h:23-28) has no `QUEUE_BUFFER_ERROR`. The header also
disagrees with `queue.c` in two more places:

- its struct (queue.h:30-36) has no `element_size`;
- its prototypes (queue.h:43-45) take one byte per element.

The model follows `queue.c` throughout. The tests (test/test_queue.cpp) use the
byte interface of the header. The scenarios model that interface as the
`queue.c` interface with element size 1 (`Push`, `Pop`).

## Element size and capacity

`queue.c` documents `size` as the size of the buffer array (queue.c:30). Its
check at queue.c:40-41 requires that buffer to hold a whole number of
elements. Together these imply a capacity of `size / element_size` elements.
The code does something different, and this model follows the code:

- the full test compares `count` with `size` (queue.c:77);
- both indexes wrap modulo `size` (queue.c:83, 115);
- the copy offsets are `tail * element_size` (queue.c:82) and
  `head * element_size` (queue.c:114).

So the code uses `size` slots of `element_size` bytes each, which is
`size * element_size` bytes of buffer.

`Valid()` therefore demands `size * element_size` bytes (stated as
`Slots.Offset(size, elementSize) <= buffer.Length`). `Init`'s contract says
exactly when a successful initialisation yields a valid queue: when
`size * elementSize <= buffer.Length`. With element size 1, a buffer of `size`
bytes is enough; this is the case the tests use.

`SlotPastBufferEnd` shows the other case. Take element size above 1 and a buffer
of exactly `size` bytes, which is what the parameter documentation at
queue.c:30 describes. After `size / element_size` enqueues into the empty
queue, the queue is not yet full. The next accepted copy would end past
byte `size`.

## Model

| member | source | states |
|---|---|---|
| Slots.OffsetIsProduct | queue.c:82 | the slot offset `Offset(k, es)` equals the product `k * es` that the code computes for `tail` and `head` |
| Slots.SlotFits | queue.c:82 | every slot below `n` ends at or before byte `Offset(n, es)`, so slots are disjoint and the `size` slots fit in `Offset(size, es)` bytes |
| Slots.WriteSlot | queue.c:82 | copying an element into slot `k` keeps the buffer length, makes slot `k` read back as the element, and leaves every byte outside the slot unchanged |
| Slots.WriteByteSlot | queue.c:82 | with one-byte elements, copying an element into slot `k` stores that byte at buffer index `k` and changes nothing else |
| Slots.ReadOtherSlot | queue.c:82 | writing slot `k` leaves every other slot's bytes as they were |
| Slots.EnqueueKeepsIndexInv | queue.c:77-84 | on a non-full queue, advancing `tail` modulo `size` and incrementing `count` keeps `head < size`, `tail < size`, `count <= size` and `tail == (head + count) % size` |
| Slots.DequeueKeepsIndexInv | queue.c:109-116 | on a non-empty queue, advancing `head` modulo `size` and decrementing `count` keeps the same bookkeeping invariant |
| Slots.ShiftIndex | queue.c:115 | position `i` of the run from `head` is position `i - 1` of the run from `(head + 1) % size` |
| Slots.Elements | queue.c:109-116 | the held elements, oldest first, number exactly `count`, and element `i` is the slot `(head + i) % size` |
| Slots.RunSlotsDistinct | queue.c:77-83 | when fewer than `size` elements are held, the free slot `(head + count) % size` is none of the occupied slots |
| Slots.ElementsAfterWrite | queue.c:82-84 | writing an element into the slot after the occupied run appends exactly that element to the held elements |
| Slots.ElementsAfterAdvance | queue.c:114-116 | advancing `head` by one slot drops exactly the oldest element, and the bytes stay as they are |
| Slots.EnqueueStep | queue.c:77-84 | an accepted enqueue step keeps the bookkeeping invariant and appends the element to the held elements |
| Slots.DequeueStep | queue.c:109-116 | an accepted dequeue step keeps the invariant; the oldest element is the slot at `head`, and the remaining ones are the old elements minus the first |
| Slots.OffsetIsWhole | queue.c:41 | every slot offset is a whole multiple of the element size |
| RingQueue.Queue.Zeroed | queue.c:47-52 | a zero-filled `queue_t`, with the fields that queue.c:47-52 assigns, is valid and unbound, holds nothing, and has every field zero or null |
| RingQueue.Queue.Put | queue.c:82-84 | on a valid, non-full queue: the element goes into slot `tail`; `tail` advances modulo `size` and `count` grows by one; `head`, the sizes and every other byte are unchanged; `Contents` gains the element at the back; `Valid()` is kept |
| RingQueue.Queue.Take | queue.c:114-116 | on a valid, non-empty queue: the front of the destination receives the oldest element and the rest of the destination is unchanged; `head` advances modulo `size` and `count` shrinks by one; `tail` and the whole buffer are unchanged, so the vacated slot is not cleared; `Contents` loses its first element; `Valid()` is kept |
| RingQueue.InitAcceptsWholeSlots | queue.c:36-44 | with both references present, initialisation is accepted exactly when the element size is positive and `size` is a positive whole number of elements |
| RingQueue.SlotPastBufferEnd | queue.c:77-83 | with element size above 1 and an accepted `size`, the state after `size / element_size` enqueues is consistent and not full, yet the next slot ends past byte `size` |
| RingQueue.Init | queue.c:34-55 | a null queue or buffer, or a zero size or element size, gives Error; a size that is not a positive multiple of the element size gives BufferError; in both cases the queue is unchanged; otherwise Ok, the buffer and both sizes are stored, `head`, `tail` and `count` are 0 and `Contents` is empty, and the queue is valid exactly when the buffer has `size * elementSize` bytes |
| RingQueue.CopyIn | queue.c:82 | the source bytes replace the destination bytes from the offset on, and every other byte stays |
| RingQueue.CopyOut | queue.c:114 | the first `n` destination bytes become the source bytes from the offset on, and the rest of the destination stays |
| RingQueue.Enqueue | queue.c:65-87 | a null queue or data, or an unbound queue, gives Error; a full queue (`count == size`) gives Full, and exactly then; on both, nothing changes; otherwise Ok, with the WriteSlot buffer, the advanced `tail` and `count`, `head` unchanged and the element appended to `Contents`; `Valid()` is kept |
| RingQueue.Dequeue | queue.c:97-119 | a null queue or destination, or an unbound queue, gives Error; an empty queue (`count == 0`) gives Empty, and exactly then; on both, neither the queue nor the destination changes; otherwise Ok, the destination's first `elementSize` bytes hold the oldest element, `head` and `count` advance, and `tail` and the buffer are unchanged; `Contents` drops its front; `Valid()` is kept |
| QueueScenarios.ByteQueue | test/test_queue.cpp:5-9 | initialising a fresh queue with a fresh `n`-byte buffer and element size 1 succeeds and gives an empty, valid queue of `n` slots |
| QueueScenarios.Push | queue.h:44 | the byte interface's enqueue: when not full, Ok, the byte stored at buffer index `tail` with every other byte unchanged, `tail` advanced modulo `size`, `head` unchanged and the byte appended; when full, Full, and neither the queue nor its buffer changes |
| QueueScenarios.Pop | queue.h:45 | the byte interface's dequeue: when not empty, Ok, the front byte returned and removed, `head` advanced modulo `size` and `tail` unchanged; when empty, Empty, the destination byte returned as it was and the queue unchanged; the buffer never changes |
| QueueScenarios.InitializationScenario | test/test_queue.cpp:5-9 | initialising with a ten-byte buffer returns Ok and leaves `count` at 0 |
| QueueScenarios.EnqueueScenario | test/test_queue.cpp:11-17 | one enqueue returns Ok and puts the byte at `buffer[0]` |
| QueueScenarios.DequeueScenario | test/test_queue.cpp:19-27 | a dequeue after one enqueue returns Ok and the enqueued byte |
| QueueScenarios.FullScenario | test/test_queue.cpp:29-37 | ten enqueues into ten slots return Ok, the eleventh returns Full, and ten elements are still held |
| QueueScenarios.EmptyScenario | test/test_queue.cpp:39-45 | a dequeue from a fresh queue returns Empty and leaves the destination byte at 0 |
| QueueScenarios.NullScenario | test/test_queue.cpp:47-59 | the statuses of the null and zero-size calls, and of the valid calls between them, are Error, Error, Error, Ok, Error, Ok, Error, Ok |
| QueueScenarios.BufferErrorScenario | queue.c:41-44 | a 15-byte size with 4-byte elements, and a 2-byte size with 4-byte elements, both give BufferError and leave the queue unbound |
| QueueScenarios.FillAndWrap | queue.c:83 | after filling three slots, taking one element and adding a fourth, the front element taken is 1 and the queue holds 2, 3, 4; the buffer bytes are 4, 2, 3, so 4 sits in the reused slot 0, and `head` and `tail` both stand at slot 1 |
| QueueScenarios.Fill | queue.c:82-84 | three enqueues into an empty three-slot queue leave it holding 1, 2, 3 in buffer bytes 0, 1, 2, with `tail` wrapped back to slot 0 |
| QueueScenarios.WraparoundScenario | queue.c:115 | with three slots, enqueue 1, 2, 3, dequeue, enqueue 4, then dequeue three times: the values come out as 1, 2, 3, 4 |
| QueueScenarios.ReinitScenario | queue.c:47-54 | re-initialising a queue that holds elements onto its own buffer empties it: the next dequeue returns only the byte enqueued afterwards, the one after that returns Empty, and the old byte 2 is still in the buffer but no longer held |
| QueueScenarios.RecordRoundTripScenario | queue.c:65-119 | a four-byte record enqueued into an 8-slot queue of 4-byte elements (32-byte buffer) dequeues byte for byte as the same record |

## Left out

- Enqueue, Dequeue: the model cannot call them on a bound queue whose buffer is shorter than `size * element_size` bytes, because they require `Valid()`. Some of those executions overrun the buffer: `SlotPastBufferEnd` shows that, for every element size above 1 and a buffer of `size` bytes, the code reaches an accepted copy that ends past byte `size`, which is undefined behaviour in C. Others stay inside the buffer and are well-defined C that the model also excludes. For example, with a 32-byte buffer, `size` 32 and element size 4, the first 8 enqueues, and dequeues of what they stored, touch only bytes 0 to 31; only the 9th accepted enqueue overruns. These in-bounds runs, including a multi-byte record round trip through a buffer of exactly `size` bytes, are not modelled. The record round trip is modelled only with a buffer of `size * element_size` bytes (`RecordRoundTripScenario`).
- Enqueue, Dequeue: both require an initialised or zero-filled queue (`Valid()`). An uninitialised `queue_t` holds indeterminate fields in C and has no model.
- Enqueue, Dequeue: the caller's element buffer is assumed to have at least `element_size` bytes. The C code cannot check this; reading or writing past it is undefined behaviour.
- Dequeue: requires the destination to be distinct from the queue's own buffer. Overlapping `memcpy` (queue.c:82, 114) is undefined behaviour in C, so aliasing between the caller's pointers and the buffer is not modelled.
- `element_size` is a `size_t` in C and is modelled as an unbounded `nat`. Under `Valid()` the products `tail * element_size` and `head * element_size` are below the buffer length, so they cannot wrap.
- `size`, `head`, `tail` and `count` are `uint32_t` and are modelled as the subset type `u32`. No wrap-around is reachable, because `tail + 1`, `head + 1` and `count + 1` stay at or below `size`.
- The numeric values of the status enum (queue.h:23-28) are not modelled. `Status` is a datatype with one constructor per status `queue.c` returns.
- The byte-only prototypes and the struct without `element_size` in queue.h:30-45 are not modelled as a separate interface. The scenarios' `Push` and `Pop` cover the byte calls as element size 1.
- Concurrency and interrupt-context use: the code has no synchronisation.
- The gtest harness and `main` (test/test_queue.cpp:61-64) are not modelled. The test cases themselves are the scenarios above.

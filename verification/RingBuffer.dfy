/** A single-producer, single-consumer ring of n slots: the producer writes the slot at head and then moves
    head, the consumer reads the slot at tail and then moves tail, and a full ring keeps one slot unused. */
module RingBuffer {

  datatype Ring<T> = Ring(slots: seq<T>, head: nat, tail: nat)

  predicate IsRing<T>(r: Ring<T>) { |r.slots| >= 2 && r.head < |r.slots| && r.tail < |r.slots| }

  /** The index after i. */
  function Next(i: nat, n: nat): (r: nat)
    requires i < n
    ensures r == if i + 1 == n then 0 else i + 1
  {
    (i + 1) % n
  }

  /** How many slots are between tail and head. */
  function Used<T>(r: Ring<T>): (u: nat)
    requires IsRing(r)
    ensures u < |r.slots|
  {
    if r.head >= r.tail then r.head - r.tail else r.head + |r.slots| - r.tail
  }

  function SlotIndex<T>(r: Ring<T>, k: nat): (i: nat)
    requires IsRing(r) && k < |r.slots|
    ensures i < |r.slots|
  {
    if r.tail + k < |r.slots| then r.tail + k else r.tail + k - |r.slots|
  }

  /** The readable slots, oldest first. */
  function Contents<T>(r: Ring<T>): (s: seq<T>)
    requires IsRing(r)
    ensures |s| == Used(r)
    ensures forall k :: 0 <= k < |s| ==> s[k] == r.slots[SlotIndex(r, k)]
  {
    seq(Used(r), k requires 0 <= k < Used(r) => r.slots[SlotIndex(r, k)])
  }

  /** Two tests that the code makes on indices, in terms of the contents. */
  lemma EmptyOrFull<T>(r: Ring<T>)
    requires IsRing(r)
    ensures r.head == r.tail <==> Contents(r) == []
    ensures Next(r.head, |r.slots|) == r.tail <==> |Contents(r)| == |r.slots| - 1
  {
  }

  /** The slot at head is never readable: whatever is written there, in however many steps, the contents and
      the slot at tail of a non-empty ring stay as they are. */
  lemma WriteIsHidden<T>(r: Ring<T>, v: T)
    requires IsRing(r)
    ensures Contents(r.(slots := r.slots[r.head := v])) == Contents(r)
    ensures r.head != r.tail ==> r.slots[r.head := v][r.tail] == r.slots[r.tail]
  {
  }

  /** Moving head appends the slot written there. */
  lemma PublishAppends<T>(r: Ring<T>)
    requires IsRing(r) && Used(r) < |r.slots| - 1
    ensures Contents(r.(head := Next(r.head, |r.slots|))) == Contents(r) + [r.slots[r.head]]
  {
  }

  /** Moving tail removes the oldest slot and frees no other. */
  lemma AdvanceRemoves<T>(r: Ring<T>)
    requires IsRing(r) && r.head != r.tail
    ensures Contents(r) == [r.slots[r.tail]] + Contents(r.(tail := Next(r.tail, |r.slots|)))
  {
  }
}

/**
  Where the journal puts things on its device (journal.cpp:38-53, 250): the metadata
  first, then slot i at (i + 1) times the slot size.
*/
module JournalLayout {
  import opened Flat

  const META_SIZE: nat := 48          // sizeof(journal_meta_t)
  const ELEMENT_HEADER: nat := 16     // sizeof(journal_element_t)
  const TWO_64: nat := 0x1_0000_0000_0000_0000

  function SlotSize(bs: nat): nat {
    ELEMENT_HEADER + bs
  }

  // The number of slots, computed as the constructor does: in unsigned 64-bit arithmetic.
  function NElements(size: nat, bs: nat): nat
    requires size < TWO_64 && bs < TWO_64 - ELEMENT_HEADER
  {
    (size + TWO_64 - SlotSize(bs)) % TWO_64 / SlotSize(bs)
  }

  // What the constructor accepts.
  predicate Accepted(size: nat, bs: nat)
    requires size < TWO_64 && bs < TWO_64 - ELEMENT_HEADER
  {
    512 + META_SIZE <= bs <= size && NElements(size, bs) != 0
  }

  function SlotStart(i: nat, bs: nat): nat {
    (i + 1) * SlotSize(bs)
  }

  lemma SlotsDisjoint(i: nat, j: nat, bs: nat)
    requires i < j && 512 + META_SIZE <= bs
    ensures META_SIZE <= SlotStart(i, bs)
    ensures SlotStart(i, bs) + SlotSize(bs) <= SlotStart(j, bs)
  {
    assert SlotStart(i, bs) + SlotSize(bs) == (i + 2) * SlotSize(bs) <= (j + 1) * SlotSize(bs);
    assert SlotSize(bs) <= (i + 1) * SlotSize(bs);
  }

  // The slots follow each other without gaps, behind the room of one slot for the metadata.
  lemma SlotsFollow(i: nat, bs: nat)
    ensures SlotStart(0, bs) == ELEMENT_HEADER + bs
    ensures SlotStart(i + 1, bs) == SlotStart(i, bs) + ELEMENT_HEADER + bs
  {
    assert (i + 2) * SlotSize(bs) == (i + 1) * SlotSize(bs) + SlotSize(bs);
  }

  // A device with room for a slot has all the slots that fit, and no more.
  lemma SlotsExactly(size: nat, bs: nat, i: nat)
    requires size < TWO_64 && bs < TWO_64 - ELEMENT_HEADER && SlotSize(bs) <= size
    ensures i < NElements(size, bs) <==> SlotStart(i, bs) + SlotSize(bs) <= size
  {
    var t := SlotSize(bs);
    assert (size + TWO_64 - t) % TWO_64 == size - t;
    assert SlotStart(i, bs) == i * t + t;
    DivRange(size - t, (size - t) / t, t);
    if i < NElements(size, bs) {
      Multiple(i, NElements(size, bs), size - t, t);
    } else {
      Monotone(NElements(size, bs), i, t);
    }
  }

  // All slots lie inside the device exactly when there is room for a slot next to the metadata.
  // A device of at least one block but less than one slot passes the size check; its slot count
  // then wraps around and the last slot lies far outside.
  lemma SlotsFit(size: nat, bs: nat)
    requires size < TWO_64 && bs < TWO_64 - ELEMENT_HEADER
    ensures Accepted(size, bs) ==>
              ((forall i :: 0 <= i < NElements(size, bs) ==> SlotStart(i, bs) + SlotSize(bs) <= size)
               <==> SlotSize(bs) <= size)
  {
    if !Accepted(size, bs) { return; }
    var t, n := SlotSize(bs), NElements(size, bs);
    if t <= size {
      assert (size + TWO_64 - t) % TWO_64 == size - t;
      forall i | 0 <= i < n
        ensures SlotStart(i, bs) + t <= size
      {
        assert SlotStart(i, bs) + t == i * t + t + t;
        Multiple(i, n, size - t, t);
      }
    } else {
      assert SlotStart(0, bs) + t == 2 * t > size;
    }
  }

  // Devices that are too small do pass: every size from one block up to just under one slot, for every
  // block size that fits an int.
  lemma TooSmallIsAccepted(size: nat, bs: nat)
    requires 512 + META_SIZE <= bs < 0x8000_0000 && bs <= size < SlotSize(bs)
    ensures Accepted(size, bs) && SlotStart(0, bs) + SlotSize(bs) > size
  {
    var t, wrapped := SlotSize(bs), size + TWO_64 - SlotSize(bs);
    assert wrapped < TWO_64 && wrapped % TWO_64 == wrapped;
    DivRange(wrapped, 0, t);
    assert SlotStart(0, bs) == t;
  }

  // What is refused, for every block size that fits an int: blocks of less than 560 bytes, devices of less
  // than a block, and those with room for the metadata and less than one slot behind it.
  lemma RefusedExactly(size: nat, bs: nat)
    requires bs < 0x8000_0000 && size < 0x8000_0000_0000_0000
    ensures !Accepted(size, bs) <==> bs < 560 || size < bs || SlotSize(bs) <= size < 2 * SlotSize(bs)
  {
    var t := SlotSize(bs);
    if t <= size {
      assert (size + TWO_64 - t) % TWO_64 == size - t;
      DivRange(size - t, 0, t);
    } else {
      var wrapped := size + TWO_64 - t;
      assert wrapped % TWO_64 == wrapped;
      DivRange(wrapped, 0, t);
    }
  }

  // A device of four slots' size has three of them.
  lemma ThreeSlots(bs: nat)
    requires 512 + META_SIZE <= bs < 0x8000_0000
    ensures Accepted(4 * SlotSize(bs), bs) && NElements(4 * SlotSize(bs), bs) == 3
  {
    var t := SlotSize(bs);
    assert (4 * t + TWO_64 - t) % TWO_64 == 3 * t;
    ModOfMultiple(3, t);
  }

  lemma Multiple(i: nat, n: nat, room: nat, t: nat)
    requires 0 < t && n == room / t && i < n
    ensures i * t + t <= room
  {
    assert room == n * t + room % t;
    assert i * t + t == (i + 1) * t;
    Monotone(i + 1, n, t);
  }
}

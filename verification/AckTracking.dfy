/** The cumulative acknowledgement of a stream (api/routes/stream.py:111-177, `_AckTracker`). */
module AckTracking {

  datatype Ack = Ack(through: int, count: nat, bytes: int, duplicates: multiset<int>)

  // ----- the ack point as a function of what was noted

  /** From base upwards, as far as every sequence was noted. */
  ghost function AckPoint(base: int, noted: set<int>): (t: int)
    decreases |noted|
  {
    if base + 1 in noted then AckPoint(base + 1, noted - {base + 1}) else base
  }

  /** It is the largest t such that every sequence from base+1 to t was noted. */
  lemma {:induction false} AckPointIsLargest(base: int, noted: set<int>)
    ensures base <= AckPoint(base, noted) && AckPoint(base, noted) + 1 !in noted
    ensures forall s :: base < s <= AckPoint(base, noted) ==> s in noted
    decreases |noted|
  {
    if base + 1 in noted {
      var rest := noted - {base + 1};
      AckPointIsLargest(base + 1, rest);
      forall s | base < s <= AckPoint(base, noted) ensures s in noted {
        assert s == base + 1 || s in rest;
      }
    }
  }

  lemma AckPointUnique(base: int, noted: set<int>, t: int)
    requires base <= t && t + 1 !in noted && forall s :: base < s <= t ==> s in noted
    ensures t == AckPoint(base, noted)
  {
    AckPointIsLargest(base, noted);
  }

  /** Noting more never moves it back. */
  lemma AckPointMonotone(base: int, noted: set<int>, more: set<int>)
    requires noted <= more
    ensures AckPoint(base, noted) <= AckPoint(base, more)
  {
    AckPointIsLargest(base, noted);
    AckPointIsLargest(base, more);
  }

  function Counts(acks: seq<Ack>): nat {
    if acks == [] then 0 else Counts(acks[..|acks| - 1]) + acks[|acks| - 1].count
  }

  function Bytes(acks: seq<Ack>): int {
    if acks == [] then 0 else Bytes(acks[..|acks| - 1]) + acks[|acks| - 1].bytes
  }

  function Duplicates(acks: seq<Ack>): multiset<int> {
    if acks == [] then multiset{} else Duplicates(acks[..|acks| - 1]) + acks[|acks| - 1].duplicates
  }

  /** Published and unpublished notes together. */
  ghost predicate Totals(acks: seq<Ack>, count: nat, bytes: int, duplicates: seq<int>,
                         allStored: nat, allBytes: int, allDuplicates: multiset<int>) {
    && Counts(acks) + count == allStored
    && Bytes(acks) + bytes == allBytes
    && Duplicates(acks) + multiset(duplicates) == allDuplicates
  }

  /** Acks never go back, and none is past `through`. */
  ghost predicate Ascending(acks: seq<Ack>, through: int) {
    && (forall k :: 0 <= k < |acks| ==> acks[k].through <= through)
    && (forall j, k :: 0 <= j < k < |acks| ==> acks[j].through <= acks[k].through)
  }

  lemma AscendingAbove(acks: seq<Ack>, through: int, more: int)
    requires Ascending(acks, through) && through <= more
    ensures Ascending(acks, more)
  {
  }

  lemma Published(acks: seq<Ack>, through: int, count: nat, bytes: int, duplicates: seq<int>,
                  allStored: nat, allBytes: int, allDuplicates: multiset<int>)
    requires Totals(acks, count, bytes, duplicates, allStored, allBytes, allDuplicates) && Ascending(acks, through)
    ensures var more := acks + [Ack(through, count, bytes, multiset(duplicates))];
      Totals(more, 0, 0, [], allStored, allBytes, allDuplicates) && Ascending(more, through)
  {
    assert (acks + [Ack(through, count, bytes, multiset(duplicates))])[..|acks|] == acks;
  }

  class AckTracker {
    const window: int
    var through: int
    var stored: set<int>
    var count: nat
    var bytes: int
    var duplicates: seq<int>
    var timer: bool
    var outbox: seq<Ack>

    ghost const base: int
    ghost var noted: set<int>
    ghost var allStored: nat              // stored notes so far
    ghost var allBytes: int               // their bytes
    ghost var allDuplicates: multiset<int>

    /** `through` is the ack point; `stored` agrees with what was noted above it. */
    ghost predicate Contiguous()
      reads this
    {
      && base <= through && through + 1 !in noted
      && (forall s :: base < s <= through ==> s in noted)
      && (forall s :: s > through ==> (s in stored <==> s in noted))
    }

    /** Published acks plus the unpublished remainder are all notes so far; acks never go back. */
    ghost predicate Conserved()
      reads this
    {
      && Totals(outbox, count, bytes, duplicates, allStored, allBytes, allDuplicates)
      && Ascending(outbox, through)
    }

    /** Nothing unpublished waits without a timer. */
    ghost predicate Armed()
      reads this
    {
      count + |duplicates| > 0 ==> timer
    }

    ghost predicate Valid()
      reads this
    {
      Contiguous() && Conserved() && Armed()
    }

    constructor (base: int, window: int)
      ensures Valid() && this.base == base && this.window == window && through == base && outbox == []
      ensures noted == {} && allStored == 0 && allBytes == 0 && allDuplicates == multiset{}
      ensures count == 0 && bytes == 0 && duplicates == [] && !timer
    {
      this.base, this.window, through, stored := base, window, base, {};
      count, bytes, duplicates, timer, outbox := 0, 0, [], false, [];
      noted, allStored, allBytes, allDuplicates := {}, 0, 0, multiset{};
    }

    /** The ack point depends only on the set of noted sequences, not on their order. */
    lemma ThroughIsAckPoint()
      requires Valid()
      ensures through == AckPoint(base, noted)
    {
      AckPointUnique(base, noted, through);
    }

    method Advance(sequence: int)
      requires Contiguous()
      modifies this`through, this`stored, this`noted
      ensures Contiguous() && noted == old(noted) + {sequence} && through >= old(through)
    {
      stored := stored + {sequence};
      noted := noted + {sequence};
      while through + 1 in stored
        invariant base <= old(through) <= through && noted == old(noted) + {sequence}
        invariant forall s :: base < s <= through ==> s in noted
        invariant forall s :: s > through ==> (s in stored <==> s in noted)
        decreases |stored|
      {
        through := through + 1;
        stored := stored - {through};
      }
    }

    method NoteStored(sequence: int, byteSize: int)
      requires Valid()
      modifies this
      ensures Valid() && noted == old(noted) + {sequence} && through >= old(through)
      ensures allStored == old(allStored) + 1 && allBytes == old(allBytes) + byteSize
      ensures allDuplicates == old(allDuplicates)
      ensures outbox == if old(count + |duplicates|) + 1 < window then old(outbox)
                        else old(outbox) + [Ack(through, old(count) + 1, old(bytes) + byteSize,
                                                multiset(old(duplicates)))]
    {
      hide Counts, Bytes, Duplicates, Ascending;
      count, bytes := count + 1, bytes + byteSize;
      allStored, allBytes := allStored + 1, allBytes + byteSize;
      Advance(sequence);
      AscendingAbove(outbox, old(through), through);
      OnActivity();
    }

    method NoteDuplicate(sequence: int)
      requires Valid()
      modifies this
      ensures Valid() && noted == old(noted) + {sequence} && through >= old(through)
      ensures allStored == old(allStored) && allBytes == old(allBytes)
      ensures allDuplicates == old(allDuplicates) + multiset{sequence}
      ensures outbox == if old(count + |duplicates|) + 1 < window then old(outbox)
                        else old(outbox) + [Ack(through, old(count), old(bytes),
                                                multiset(old(duplicates)) + multiset{sequence})]
    {
      hide Counts, Bytes, Duplicates, Ascending;
      duplicates := duplicates + [sequence];
      allDuplicates := allDuplicates + multiset{sequence};
      Advance(sequence);
      AscendingAbove(outbox, old(through), through);
      OnActivity();
    }

    method OnActivity()
      requires Contiguous() && Conserved()
      modifies this`count, this`bytes, this`duplicates, this`timer, this`outbox
      ensures Valid()
      ensures count + |duplicates| > 0 ==> count + |duplicates| < window
      ensures outbox == if old(count + |duplicates|) < window || old(count + |duplicates|) == 0 then old(outbox)
                        else old(outbox) + [Ack(through, old(count), old(bytes), multiset(old(duplicates)))]
    {
      if count + |duplicates| >= window {
        Flush();
      } else if !timer {
        timer := true;
      }
    }

    /** The window's timer. */
    method TimerFires()
      requires Valid() && timer
      modifies this`count, this`bytes, this`duplicates, this`timer, this`outbox
      ensures Valid() && count == 0 && duplicates == [] && !timer
      ensures outbox == if old(count == 0 && duplicates == []) then old(outbox)
                        else old(outbox) + [Ack(through, old(count), old(bytes), multiset(old(duplicates)))]
    {
      timer := false;
      Flush();
    }

    /** One ack for everything noted since the last. */
    method Flush()
      requires Contiguous() && Conserved()
      modifies this`count, this`bytes, this`duplicates, this`timer, this`outbox
      ensures Valid() && count == 0 && duplicates == [] && !timer
      ensures outbox == if old(count == 0 && duplicates == []) then old(outbox)
                        else old(outbox) + [Ack(through, old(count), old(bytes), multiset(old(duplicates)))]
    {
      hide Totals, Ascending;
      timer := false;
      if count == 0 && duplicates == [] { return; }
      Published(outbox, through, count, bytes, duplicates, allStored, allBytes, allDuplicates);
      outbox := outbox + [Ack(through, count, bytes, multiset(duplicates))];
      count, bytes, duplicates := 0, 0, [];
    }
  }
}

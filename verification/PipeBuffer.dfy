/** kernel/pipe.c: the ring buffer of a pipe and the byte loops that run under its lock. */
module PipeBuffer {
  import opened Disk

  const PIPESIZE := 512
  /** uint counters wrap here. */
  const WRAP := 0x1_0000_0000

  /** Where position k of the byte stream is kept. */
  function Slot(k: nat): (i: nat)
    ensures i < PIPESIZE
  {
    k % PIPESIZE
  }

  /** A 32-bit sum. */
  function Sum(a: nat, b: nat): nat
  {
    (a + b) % WRAP
  }

  function Counter(k: nat): nat
  {
    k % WRAP
  }

  /** The counters are positions modulo 2^32, which PIPESIZE divides. */
  lemma SlotOf(k: nat)
    ensures Slot(Counter(k)) == Slot(k)
  {
    var q := k / WRAP;
    ModMultiple(k % WRAP, q * 8388608);
    assert k == k % WRAP + (q * 8388608) * PIPESIZE;
  }

  lemma {:induction false} ModMultiple(a: nat, c: nat)
    ensures (a + c * PIPESIZE) % PIPESIZE == a % PIPESIZE
  {
    if c > 0 {
      ModMultiple(a, c - 1);
      assert a + c * PIPESIZE == (a + (c - 1) * PIPESIZE) + PIPESIZE;
    }
  }

  lemma CounterNext(k: nat)
    ensures Sum(Counter(k), 1) == Counter(k + 1)
  {
  }

  /** nwrite == nread + PIPESIZE in 32 bits is a full pipe, nread == nwrite an empty one. */
  lemma CounterTests(taken: nat, stored: nat)
    requires taken <= stored <= taken + PIPESIZE
    ensures Counter(stored) == Sum(Counter(taken), PIPESIZE) <==> stored == taken + PIPESIZE
    ensures Counter(taken) == Counter(stored) <==> stored == taken
  {
    var a, b := taken / WRAP, stored / WRAP;
    assert taken == a * WRAP + taken % WRAP && stored == b * WRAP + stored % WRAP;
    assert b == a || b == a + 1;
  }

  /** Two positions less than PIPESIZE apart have different slots. */
  lemma SlotsApart(j: nat, k: nat)
    requires j < k < j + PIPESIZE
    ensures Slot(j) != Slot(k)
  {
  }

  class PipeRing {
    var data: array<byte>
    var nread: nat
    var nwrite: nat
    ghost var stored: seq<byte>   // every byte ever written
    ghost var taken: nat          // how many have been read

    ghost predicate Valid()
      reads this, data
    {
      && data.Length == PIPESIZE
      && taken <= |stored| <= taken + PIPESIZE
      && nwrite == Counter(|stored|) && nread == Counter(taken)
      && (forall k | taken <= k < |stored| :: data[Slot(k)] == stored[k])
    }

    constructor ()
      ensures Valid() && fresh(data) && stored == [] && taken == 0
    {
      data := new byte[PIPESIZE];
      nread, nwrite := 0, 0;
      stored, taken := [], 0;
    }

    method PutByte(ch: byte)
      requires Valid() && |stored| < taken + PIPESIZE
      modifies this`nwrite, this`stored, data
      ensures Valid() && stored == old(stored) + [ch]
    {
      hide Slot, Sum, Counter;
      SlotOf(|stored|);
      CounterNext(|stored|);
      data[Slot(nwrite)] := ch;
      ghost var was := stored;
      forall k | taken <= k < |was|
        ensures data[Slot(k)] == was[k]
      {
        SlotsApart(k, |was|);
      }
      nwrite := Sum(nwrite, 1);
      stored := stored + [ch];
    }

    /** pipewrite's loop up to the point where it sleeps or ends: src from i on goes in until the
        pipe is full, all is in, or the user address src + faults cannot be read. */
    method Put(src: seq<byte>, i: nat, faults: nat) returns (j: nat)
      requires Valid() && i <= |src|
      modifies this`nwrite, this`stored, data
      ensures Valid() && i <= j <= |src| && stored == old(stored) + src[i..j]
      // it stopped for one of the three reasons, and for nothing else
      ensures j == |src| || j >= faults || |stored| == taken + PIPESIZE
      ensures j > i ==> i < faults && j <= faults
    {
      hide Slot, Sum, Counter;
      j := i;
      while j < |src|
        invariant Valid() && i <= j <= |src| && stored == old(stored) + src[i..j]
        invariant j > i ==> j <= faults
      {
        CounterTests(taken, |stored|);
        if nwrite == Sum(nread, PIPESIZE) || j >= faults {
          return;
        }
        PutByte(src[j]);
        j := j + 1;
      }
    }

    /** piperead's copying loop: the next bytes, at most n of them, in the order they were written.
        A byte whose copyout faults is taken from the pipe all the same, and is lost. */
    method Get(n: nat, faults: nat) returns (out: seq<byte>, ghost lost: bool)
      requires Valid()
      modifies this`nread, this`taken
      ensures Valid() && |out| <= n && old(taken) + |out| <= |stored|
      ensures out == stored[old(taken)..old(taken) + |out|]
      ensures taken == old(taken) + |out| + (if lost then 1 else 0)
      ensures lost ==> |out| == faults < n
      ensures !lost ==> |out| == n || taken == |stored|
    {
      hide Slot, Sum, Counter;
      out, lost := [], false;
      while |out| < n
        invariant Valid() && |out| <= n && taken == old(taken) + |out| <= |stored| && !lost
        invariant out == stored[old(taken)..taken] && |out| <= faults
      {
        CounterTests(taken, |stored|);
        if nread == nwrite {
          return;
        }
        SlotOf(taken);
        CounterNext(taken);
        var ch := data[Slot(nread)];
        nread, taken := Sum(nread, 1), taken + 1;
        if |out| >= faults {
          lost := true;
          return;
        }
        out := out + [ch];
      }
    }
  }
}

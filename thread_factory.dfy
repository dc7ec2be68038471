/**
 * The thread factory that names each new thread after a pattern and a
 * running index. The index is a Java `int`, so it wraps around.
 */
module ThreadFactory {
  import opened Tasks

  const Int32Min: int := -0x8000_0000
  const Int32Max: int := 0x7fff_ffff
  const Int32Span: int := 0x1_0000_0000

  predicate IsInt32(x: int) {
    Int32Min <= x <= Int32Max
  }

  /** The `int` that `x` becomes in two's complement arithmetic. */
  function Wrap32(x: int): (r: int)
    ensures IsInt32(r)
    ensures IsInt32(x) ==> r == x
    ensures (x - r) % Int32Span == 0
  {
    (x - Int32Min) % Int32Span + Int32Min
  }

  /** `getAndIncrement` on an `AtomicInteger`: the successor, wrapping after the maximum. */
  function Increment(i: int): (r: int)
    requires IsInt32(i)
    ensures IsInt32(r)
    ensures i < Int32Max ==> r == i + 1
    ensures i == Int32Max ==> r == Int32Min
  {
    Wrap32(i + 1)
  }

  /** Stepping `Increment` n times from `start` lands on `Wrap32(start + n)`. */
  lemma IncrementWraps(start: int, n: nat)
    requires IsInt32(start)
    ensures Increment(Wrap32(start + n)) == Wrap32(start + n + 1)
  {
    var m := start + n - Int32Min;
    var w := Wrap32(start + n);
    var q := m / 0x1_0000_0000;
    assert m == q * 0x1_0000_0000 + (w - Int32Min);
    if w < Int32Max {
      assert m + 1 == q * 0x1_0000_0000 + (w + 1 - Int32Min);
    } else {
      assert m + 1 == (q + 1) * 0x1_0000_0000;
    }
  }

  /** Fewer than 2^32 consecutive indices never repeat. */
  lemma IndicesDistinct(start: int, i: nat, j: nat)
    requires i < j < i + Int32Span
    ensures Wrap32(start + i) != Wrap32(start + j)
  {
    var a := start + i - Int32Min;
    var b := start + j - Int32Min;
    assert b - a == j - i;
  }

  /** Without overflow the indices used are exactly `start, start + 1, …`. */
  lemma NoOverflowIndices(start: int, n: nat, i: nat)
    requires IsInt32(start) && start + n <= Int32Max + 1 && i < n
    ensures Wrap32(start + i) == start + i
  {
  }

  /** The name `String.format(pattern, index)`, left uninterpreted. */
  datatype ThreadName = Formatted(pattern: string, index: int)

  /** A thread that is created but not started. */
  datatype Thread = Thread(name: ThreadName, target: Task)

  class IndexCountingThreadFactory {
    const namePattern: string
    var index: int
    ghost const startIndex: int
    /** The indices consumed so far, oldest first. */
    ghost var issued: seq<int>

    ghost predicate Valid()
      reads this
    {
      IsInt32(startIndex) && IsInt32(index)
      && index == Wrap32(startIndex + |issued|)
      && forall i :: 0 <= i < |issued| ==> issued[i] == Wrap32(startIndex + i)
    }

    constructor (namePattern: string, startIndex: int)
      requires IsInt32(startIndex)
      ensures Valid()
      ensures GetPattern() == namePattern && GetNextIndex() == startIndex
      ensures this.startIndex == startIndex && issued == []
    {
      this.namePattern := namePattern;
      this.index := startIndex;
      this.startIndex := startIndex;
      this.issued := [];
    }

    /** `getPattern()` */
    function GetPattern(): (p: string)
      ensures p == namePattern
    {
      namePattern
    }

    /** `getNextIndex()`: the index the next thread will get. */
    function GetNextIndex(): (i: int)
      reads this
      requires Valid()
      ensures IsInt32(i)
      ensures i == Wrap32(startIndex + |issued|)
    {
      index
    }

    /** `newThread(r)`: names the thread with the current index and advances it. */
    method NewThread(r: Task) returns (t: Thread)
      requires Valid()
      modifies this
      ensures Valid()
      ensures t == Thread(Formatted(GetPattern(), old(GetNextIndex())), r)
      ensures GetNextIndex() == Increment(old(GetNextIndex()))
      ensures issued == old(issued) + [old(GetNextIndex())]
    {
      IncrementWraps(startIndex, |issued|);
      t := Thread(Formatted(namePattern, index), r);
      issued := issued + [index];
      index := Increment(index);
    }
  }
}

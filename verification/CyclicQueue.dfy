/** A first-in first-out queue over a circular array that grows when it is full. */
module CyclicQueue {
  import opened Options

  /** The elements from `tail` on, going round the array. */
  function Unrolled<T>(data: seq<T>, tail: nat, count: nat): (s: seq<T>)
    requires tail < |data| && count <= |data|
    ensures |s| == count && forall k | 0 <= k < count :: s[k] == data[Place(tail, k, |data|)]
  {
    seq(count, k requires 0 <= k < count => data[Place(tail, k, |data|)])
  }

  /** The place of the k-th element, less than one round after the tail. */
  function Place(tail: nat, k: nat, size: nat): (p: nat)
    requires tail < size && k < size
    ensures p < size
  {
    if tail + k < size then tail + k else tail + k - size
  }

  function Next(p: nat, size: nat): nat
    requires size > 0
  {
    (p + 1) % size
  }

  lemma NextPlace(p: nat, size: nat)
    requires p < size
    ensures Next(p, size) == if p + 1 == size then 0 else p + 1
  {
  }

  class Queue<T(0)> {
    var data: array<T>
    var actualSize: nat
    var head: nat
    var tail: nat

    ghost predicate Valid()
      reads this, data
    {
      && data.Length >= 2 && actualSize <= data.Length && tail < data.Length
      && head == (if tail + actualSize < data.Length then tail + actualSize else tail + actualSize - data.Length)
    }

    ghost function Contents(): seq<T>
      requires Valid()
      reads this, data
    {
      Unrolled(data[..], tail, actualSize)
    }

    /** With a size below two the growth by half would be no growth. */
    constructor (size: nat)
      requires size >= 2
      ensures Valid() && fresh(data) && Contents() == []
    {
      data := new T[size];
      actualSize, head, tail := 0, 0, 0;
    }

    method Push(x: T)
      requires Valid()
      modifies this, data
      ensures Valid() && (fresh(data) || data == old(data)) && Contents() == old(Contents()) + [x]
    {
      if actualSize >= data.Length {
        Resize();
      }
      NextPlace(head, data.Length);
      data[head] := x;
      head := Next(head, data.Length);
      actualSize := actualSize + 1;
    }

    method Pop() returns (x: Option<T>)
      requires Valid()
      modifies this
      ensures Valid() && data == old(data)
      ensures old(Contents()) == [] ==> x == None && Contents() == []
      ensures old(Contents()) != [] ==> x == Some(old(Contents())[0]) && Contents() == old(Contents())[1..]
    {
      x := None;
      if actualSize != 0 {
        NextPlace(tail, data.Length);
        x := Some(data[tail]);
        tail := Next(tail, data.Length);
        actualSize := actualSize - 1;
      }
    }

    method Clear()
      requires Valid()
      modifies this
      ensures Valid() && data == old(data) && Contents() == []
    {
      actualSize, head, tail := 0, 0, 0;
    }

    /** The name says the opposite: the result is true if there are elements. */
    method IsEmpty() returns (r: bool)
      requires Valid()
      ensures r == (Contents() != [])
    {
      r := actualSize != 0;
    }

    /** A full queue moves to an array larger by half, its first element to the front. */
    method Resize()
      requires Valid() && actualSize == data.Length
      modifies this
      ensures Valid() && fresh(data) && data.Length == old(data.Length) + old(data.Length) / 2
      ensures actualSize == old(data.Length) && Contents() == old(Contents())
    {
      var size := data.Length;
      var bigger := new T[size + size / 2];
      var offset := size - head;
      forall k | 0 <= k < offset {
        bigger[k] := data[head + k];
      }
      forall k | 0 <= k < head {
        bigger[offset + k] := data[k];
      }
      assert forall k | 0 <= k < size :: bigger[k] == data[Place(tail, k, size)];
      tail, head := 0, size;
      data := bigger;
    }
  }
}

/** The fixed-capacity buffer that keeps the most recent tokens. */
module RingBuffers {
  import opened Options

  /** The last n elements, or all of them. */
  function LastN<T>(s: seq<T>, n: nat): (r: seq<T>)
    ensures |r| == if |s| <= n then |s| else n
  {
    if |s| <= n then s else s[|s| - n..]
  }

  /** Keeping only the last n elements at every step is keeping the last n of everything. */
  lemma LastNStep<T>(s: seq<T>, x: T, n: nat)
    ensures LastN(LastN(s, n) + [x], n) == LastN(s + [x], n)
  {
  }

  lemma ModSmall(x: nat, n: nat)
    requires 0 < n && x < 2 * n
    ensures x % n == if x < n then x else x - n
  {
    if x >= n { assert (x - n) % n == x - n && x == 1 * n + (x - n); ModStep(x - n, n); }
  }

  lemma ModStep(y: nat, n: nat)
    requires 0 < n && y < n
    ensures (y + n) % n == y
  {
    var q, r := (y + n) / n, (y + n) % n;
    assert y + n == q * n + r;
    assert q < 1 ==> q * n <= 0;
    assert q >= 2 ==> (q - 2) * n >= 0;
    assert q == 1;
  }

  class RingBuffer<T(0)> {
    const capacity: nat
    const data: array<T>
    var sz: nat
    var first: nat
    var pos: nat

    ghost predicate Valid()
      reads this
    {
      0 < capacity == data.Length && sz <= capacity && first < capacity && pos < capacity && pos == Slot(sz)
    }

    /** Where the i-th oldest element is. */
    function Slot(i: int): int
      reads this
    {
      if first + i < capacity then first + i else first + i - capacity
    }

    /** The elements, oldest first. */
    ghost function Contents(): (s: seq<T>)
      reads this, data
      requires Valid()
      ensures |s| == sz
    {
      seq(sz, i requires 0 <= i < sz && Valid() reads this, data => data[Slot(i)])
    }

    constructor (cap: nat)
      requires cap > 0
      ensures Valid() && capacity == cap && Contents() == [] && fresh(data)
    {
      capacity := cap;
      data := new T[cap];
      sz, first, pos := 0, 0, 0;
    }

    method PushBack(value: T)
      requires Valid()
      modifies this, data
      ensures Valid() && Contents() == LastN(old(Contents()) + [value], capacity)
    {
      ghost var longer := Contents() + [value];
      ModSmall(first + 1, capacity);
      ModSmall(pos + 1, capacity);
      if sz == capacity {
        first := (first + 1) % capacity;
      } else {
        sz := sz + 1;
      }
      data[pos] := value;
      pos := (pos + 1) % capacity;
      forall i | 0 <= i < sz ensures Contents()[i] == LastN(longer, capacity)[i] {
        if i == sz - 1 {
          assert Slot(i) == old(pos);
        } else {
          assert Slot(i) == old(Slot(if sz == capacity then i + 1 else i)) != old(pos);
        }
      }
    }

    method PopFront() returns (value: Option<T>)
      requires Valid()
      modifies this
      ensures Valid()
      ensures old(Contents()) == [] ==> value == None && Contents() == []
      ensures old(Contents()) != [] ==> value.Some? && old(Contents()) == [value.value] + Contents()
    {
      if sz == 0 {
        return None;
      }
      value := Some(data[first]);
      ModSmall(first + 1, capacity);
      first := (first + 1) % capacity;
      sz := sz - 1;
    }

    method Front() returns (value: Option<T>)
      requires Valid()
      ensures value == if Contents() == [] then None else Some(Contents()[0])
    {
      value := if sz == 0 then None else Some(data[first]);
    }

    /** The i-th element counted from the newest. */
    method Rat(i: nat) returns (value: Option<T>)
      requires Valid()
      ensures value == if i >= |Contents()| then None else Some(Contents()[|Contents()| - 1 - i])
    {
      if i >= sz {
        return None;
      }
      ModSmall(first + sz - i - 1, capacity);
      value := Some(data[(first + sz - i - 1) % capacity]);
    }

    method ToVector() returns (result: seq<T>)
      requires Valid()
      ensures result == Contents()
    {
      result := [];
      for i := 0 to sz
        invariant result == Contents()[..i]
      {
        ModSmall(first + i, capacity);
        result := result + [data[(first + i) % capacity]];
      }
    }

    method Clear()
      requires Valid()
      modifies this
      ensures Valid() && Contents() == []
    {
      sz, first, pos := 0, 0, 0;
    }
  }
}

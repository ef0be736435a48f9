/** The ring of log entries, growing when it gets full. Every method is one step of the protocol. */
module LogRing {
  import opened Options
  import opened LogProtocol

  lemma Wraps(x: nat, n: nat)
    requires 0 < n && x <= n
    ensures x % n == if x < n then x else 0
  {
  }

  class Log {
    var entries: array<Entry>
    var head: nat
    var tail: nat
    var running: bool
    var worker: Worker
    var printed: seq<Message>
    ghost var accepted: seq<Message>

    ghost predicate Valid()
      reads this
    {
      0 < entries.Length && head < entries.Length && tail < entries.Length
    }

    /** How many entries there are; none if head and tail meet. */
    function Count(): int
      reads this
    {
      if head <= tail then tail - head else tail + entries.Length - head
    }

    /** The position of the i-th entry. */
    function Slot(i: int): int
      reads this
    {
      if head + i < entries.Length then head + i else head + i - entries.Length
    }

    /** The entries from head to tail. */
    ghost function Queue(): (q: seq<Entry>)
      reads this, entries
      requires Valid()
      ensures |q| == Count()
    {
      seq(Count(), i requires 0 <= i < Count() && Valid() reads this, entries => entries[Slot(i)])
    }

    ghost function Current(): State
      reads this, entries
      requires Valid()
    {
      State(Queue(), entries.Length, running, worker, printed, accepted)
    }

    constructor (capacity: nat)
      requires capacity > 0
      ensures Valid() && fresh(entries) && Current() == Start(capacity)
    {
      entries := new Entry[capacity](_ => Msg(""));
      head, tail := 0, 0;
      running, worker := true, Waiting;
      printed, accepted := [], [];
    }

    method Advance(i: nat) returns (j: nat)
      requires 0 < entries.Length && i < entries.Length
      ensures j == if i + 1 < entries.Length then i + 1 else 0
    {
      Wraps(i + 1, entries.Length);
      j := (i + 1) % entries.Length;
    }

    /** Writes an entry at the tail. If it fills the ring, head and tail meet and the ring looks empty. */
    method Push(e: Entry) returns (full: bool)
      requires Valid() && Count() < entries.Length
      modifies this`tail, entries
      ensures Valid() && full == (head == tail) == (old(Count()) + 1 == entries.Length)
      ensures !full ==> Queue() == old(Queue()) + [e]
      ensures full ==> Queue() == [] && forall i :: 0 <= i < entries.Length ==>
              entries[Slot(i)] == (old(Queue()) + [e])[i]
    {
      ghost var was := Queue();
      entries[tail] := e;
      tail := Advance(tail);
      full := head == tail;
    }

    /** Moves the entries of a full ring to one of twice the size. */
    method Grow(ghost q: seq<Entry>)
      requires Valid() && head == tail && |q| == entries.Length
      requires forall i :: 0 <= i < |q| ==> entries[Slot(i)] == q[i]
      modifies this`entries, this`head, this`tail
      ensures Valid() && fresh(entries) && entries.Length == 2 * old(entries.Length) && Queue() == q
    {
      ghost var start := head;
      var n := entries.Length;
      var newEntries := new Entry[2 * n](_ => Msg(""));
      var newTail := 0;
      while newTail == 0 || head != tail
        invariant entries == old(entries) && tail == start && entries.Length == n && |q| == n
        invariant newTail <= n && head == (if start + newTail < n then start + newTail else start + newTail - n)
        invariant forall i :: 0 <= i < newTail ==> newEntries[i] == q[i]
        invariant forall i :: 0 <= i < n ==> entries[if start + i < n then start + i else start + i - n] == q[i]
        decreases n - newTail
      {
        newEntries[newTail] := entries[head];
        head := Advance(head);
        newTail := newTail + 1;
      }
      head, tail := 0, newTail;
      entries := newEntries;
    }

    /** `add` */
    method Add(m: Message)
      requires Valid() && Inv(Current()) && Enabled(Current(), Step.Add(m))
      modifies this, entries
      ensures Valid() && Current() == Do(old(Current()), Step.Add(m))
      ensures entries == old(entries) || fresh(entries)
    {
      if !running {
        return;
      }
      ghost var q := Queue() + [Msg(m)];
      var full := Push(Msg(m));
      if full {
        Grow(q);
      }
      accepted := accepted + [m];
    }

    /** The worker copies an entry out of the ring. */
    method Pop()
      requires Valid() && Enabled(Current(), Step.Pop)
      modifies this
      ensures Valid() && Current() == Do(old(Current()), Step.Pop)
      ensures entries == old(entries)
    {
      worker := Holding(entries[head]);
      head := Advance(head);
    }

    /** The worker prints what it holds, or stops. */
    method Print()
      requires Valid() && Enabled(Current(), Step.Print)
      modifies this
      ensures Valid() && Current() == Do(old(Current()), Step.Print)
      ensures entries == old(entries)
    {
      if worker.e.End? {
        worker := Stopped;
      } else {
        printed := printed + [worker.e.m];
        worker := Waiting;
      }
    }

    /** The part of `pause` under the lock. */
    method Pause()
      requires Valid() && Inv(Current()) && Enabled(Current(), Step.Pause)
      modifies this, entries
      ensures Valid() && Current() == Do(old(Current()), Step.Pause)
      ensures entries == old(entries)
    {
      if !running {
        return;
      }
      running := false;
      var _ := Push(End);
    }

    /** The part of `pause` that waits for the worker. */
    method Join()
      requires Valid() && Enabled(Current(), Step.Join)
      modifies this
      ensures Valid() && Current() == Do(old(Current()), Step.Join)
      ensures entries == old(entries)
    {
      worker := NoWorker;
    }

    /** `resume`: assigning a new thread over one that was not joined terminates the program. */
    method Resume()
      requires Valid() && Enabled(Current(), Step.Resume)
      modifies this
      ensures Valid() && Current() == Do(old(Current()), Step.Resume)
      ensures entries == old(entries)
    {
      if running {
        return;
      }
      running := true;
      worker := if worker == NoWorker then Waiting else Aborted;
    }

    method Happen(s: Step)
      requires Valid() && Inv(Current()) && Enabled(Current(), s)
      modifies this, entries
      ensures Valid() && Inv(Current()) && Current() == Do(old(Current()), s)
      ensures entries == old(entries) || fresh(entries)
    {
      StepKeeps(Current(), s);
      match s {
        case Add(m) => Add(m);
        case Pop => Pop();
        case Print => Print();
        case Pause => Pause();
        case Join => Join();
        case Resume => Resume();
      }
    }

    /** Whatever happens in whatever order is a run of the protocol. */
    method HappenAll(steps: seq<Step>)
      requires Valid() && Inv(Current()) && Run(Current(), steps).Some?
      modifies this, entries
      ensures Valid() && Inv(Current()) && Run(old(Current()), steps) == Some(Current())
    {
      for i := 0 to |steps|
        invariant Valid() && Inv(Current()) && (entries == old(entries) || fresh(entries))
        invariant Run(Current(), steps[i..]) == Run(old(Current()), steps)
      {
        assert steps[i..][1..] == steps[i + 1..];
        Happen(steps[i]);
      }
    }
  }
}

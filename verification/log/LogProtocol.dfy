/** The log as a protocol: producers, a worker thread and pauses, one step under the lock at a time. */
module LogProtocol {
  import opened Options

  type Message = string

  /** What lies in the ring: a message, or the marker that tells the worker to stop. */
  datatype Entry = Msg(m: Message) | End

  /** The worker waits for an entry, holds one it has copied out, or has stopped; a stopped one is joined once.
      Starting another one before that aborts the program. */
  datatype Worker = NoWorker | Waiting | Holding(e: Entry) | Stopped | Aborted

  datatype State = State(queue: seq<Entry>, capacity: nat, running: bool, worker: Worker,
                         printed: seq<Message>, accepted: seq<Message>)

  datatype Step = Add(m: Message) | Pop | Print | Pause | Join | Resume

  /** Which steps can happen. */
  predicate Enabled(st: State, s: Step) {
    match s
    case Pop => st.worker == Waiting && st.queue != []
    case Print => st.worker.Holding?
    case Join => st.worker == Stopped
    case _ => st.worker != Aborted
  }

  /** A worker is started although the last one has not been joined. */
  predicate Aborts(st: State, s: Step) { s == Resume && !st.running && st.worker != NoWorker }

  /** Adding doubles the ring when it gets full. Pausing does not: a ring that gets full by the end marker looks
      empty. */
  function Do(st: State, s: Step): State
    requires Enabled(st, s)
  {
    match s
    case Add(m) =>
      if !st.running then st
      else st.(queue := st.queue + [Msg(m)], accepted := st.accepted + [m],
               capacity := if |st.queue| + 1 == st.capacity then 2 * st.capacity else st.capacity)
    case Pop => st.(queue := st.queue[1..], worker := Holding(st.queue[0]))
    case Print =>
      if st.worker.e.End? then st.(worker := Stopped)
      else st.(worker := Waiting, printed := st.printed + [st.worker.e.m])
    case Pause =>
      if !st.running then st
      else st.(running := false, queue := if |st.queue| + 1 == st.capacity then [] else st.queue + [End])
    case Join => st.(worker := NoWorker)
    case Resume =>
      if st.running then st else st.(running := true, worker := if st.worker == NoWorker then Waiting else Aborted)
  }

  function Start(capacity: nat): State { State([], capacity, true, Waiting, [], []) }

  /** The steps in order, if each can happen. */
  function Run(st: State, steps: seq<Step>): Option<State>
    decreases |steps|
  {
    if steps == [] then Some(st)
    else if Enabled(st, steps[0]) then Run(Do(st, steps[0]), steps[1..])
    else None
  }

  // ---------------------------------------------------------------------------------------------
  // What every step keeps
  // ---------------------------------------------------------------------------------------------

  function Messages(q: seq<Entry>): seq<Message> {
    if q == [] then [] else (if q[0].Msg? then [q[0].m] else []) + Messages(q[1..])
  }

  function InHand(w: Worker): seq<Message> { if w.Holding? && w.e.Msg? then [w.e.m] else [] }

  /** Nothing is lost, doubled or out of order. */
  predicate Complete(st: State) { st.accepted == st.printed + InHand(st.worker) + Messages(st.queue) }

  predicate OnlyMessages(q: seq<Entry>) { forall i :: 0 <= i < |q| ==> q[i].Msg? }

  predicate AtWork(w: Worker) { w == Waiting || (w.Holding? && w.e.Msg?) }

  /** Running: messages only. */
  predicate Active(st: State) { st.running && OnlyMessages(st.queue) && AtWork(st.worker) && Complete(st) }

  /** Paused, the worker on its way to the end marker. */
  predicate Draining(st: State) {
    && !st.running && Complete(st)
    && ((st.queue != [] && OnlyMessages(st.queue[..|st.queue| - 1]) && st.queue[|st.queue| - 1] == End
        && AtWork(st.worker))
        || (st.queue == [] && st.worker == Holding(End)))
  }

  /** The worker has stopped. */
  predicate Ended(st: State) {
    !st.running && st.queue == [] && (st.worker == Stopped || st.worker == NoWorker) && st.printed == st.accepted
  }

  /** Paused, but the end marker made the ring look empty: the worker waits for ever. */
  predicate Stuck(st: State) {
    !st.running && st.queue == [] && AtWork(st.worker) && st.printed + InHand(st.worker) <= st.accepted
  }

  /** The program is gone. */
  predicate Gone(st: State) { st.worker == Aborted && st.printed <= st.accepted }

  predicate Inv(st: State) {
    |st.queue| < st.capacity && (Active(st) || Draining(st) || Ended(st) || Stuck(st) || Gone(st))
  }

  lemma {:induction false} MessagesSnoc(q: seq<Entry>, e: Entry)
    ensures Messages(q + [e]) == Messages(q) + if e.Msg? then [e.m] else []
  {
    if q != [] {
      MessagesSnoc(q[1..], e);
      assert (q + [e])[1..] == q[1..] + [e];
    }
  }

  lemma AddKeeps(st: State, m: Message)
    requires Inv(st) && Enabled(st, Add(m))
    ensures Inv(Do(st, Add(m)))
  {
    MessagesSnoc(st.queue, Msg(m));
  }

  lemma PopKeeps(st: State)
    requires Inv(st) && Enabled(st, Pop)
    ensures Inv(Do(st, Pop))
  {
    var q, st' := st.queue, Do(st, Pop);
    assert st.accepted == st'.printed + InHand(st'.worker) + Messages(st'.queue);
    if Draining(st) && |q| > 1 { assert q[1..][..|q| - 2] == q[..|q| - 1][1..]; }
  }

  lemma PauseKeeps(st: State)
    requires Inv(st) && Enabled(st, Pause)
    ensures Inv(Do(st, Pause))
  {
    MessagesSnoc(st.queue, End);
    if st.running {
      assert (st.queue + [End])[..|st.queue|] == st.queue;
    }
  }

  lemma StepKeeps(st: State, s: Step)
    requires Inv(st) && Enabled(st, s)
    ensures Inv(Do(st, s))
  {
    match s
    case Add(m) => AddKeeps(st, m);
    case Pop => PopKeeps(st);
    case Pause => PauseKeeps(st);
    case _ =>
  }

  lemma {:induction false} RunKeeps(st: State, steps: seq<Step>)
    requires Inv(st)
    ensures Run(st, steps).Some? ==> Inv(Run(st, steps).value)
    decreases |steps|
  {
    if steps != [] && Enabled(st, steps[0]) {
      StepKeeps(st, steps[0]);
      RunKeeps(Do(st, steps[0]), steps[1..]);
    }
  }

  /** A step aborts the program exactly if it starts a worker before the last one was joined. */
  lemma AbortsExactly(st: State, s: Step)
    requires Inv(st) && Enabled(st, s)
    ensures Do(st, s).worker == Aborted <==> Aborts(st, s)
  {
  }

  /** At which step of a run a worker is started too early. */
  predicate AbortsAt(st: State, steps: seq<Step>, i: nat)
    requires i < |steps|
  {
    Run(st, steps[..i]).Some? && Aborts(Run(st, steps[..i]).value, steps[i])
  }

  lemma {:induction false} RunSnoc(st: State, steps: seq<Step>, s: Step)
    ensures Run(st, steps + [s]) ==
            if Run(st, steps).Some? && Enabled(Run(st, steps).value, s) then Some(Do(Run(st, steps).value, s)) else None
    decreases |steps|
  {
    var all := steps + [s];
    if steps == [] {
      assert all[1..] == [];
    } else {
      assert all[1..] == steps[1..] + [s];
      if Enabled(st, steps[0]) { RunSnoc(Do(st, steps[0]), steps[1..], s); }
    }
  }

  /** A run ends with an abort exactly if its last step starts a worker too early; nothing happens behind that. */
  lemma {:induction false} RunAborts(capacity: nat, steps: seq<Step>)
    requires capacity > 0 && Run(Start(capacity), steps).Some?
    ensures Run(Start(capacity), steps).value.worker == Aborted <==>
            exists i :: 0 <= i < |steps| && AbortsAt(Start(capacity), steps, i)
    ensures forall i :: 0 <= i < |steps| && AbortsAt(Start(capacity), steps, i) ==> i == |steps| - 1
    decreases |steps|
  {
    if steps != [] {
      var front, s := steps[..|steps| - 1], steps[|steps| - 1];
      assert steps == front + [s] && steps[..|front|] == front;
      RunSnoc(Start(capacity), front, s);
      RunKeeps(Start(capacity), front);
      RunAborts(capacity, front);
      AbortsExactly(Run(Start(capacity), front).value, s);
      assert AbortsAt(Start(capacity), steps, |front|) <==> Aborts(Run(Start(capacity), front).value, s);
      forall i | 0 <= i < |front| ensures !AbortsAt(Start(capacity), steps, i) {
        assert steps[..i] == front[..i] && steps[i] == front[i];
        assert AbortsAt(Start(capacity), steps, i) == AbortsAt(Start(capacity), front, i);
      }
    }
  }

  // ---------------------------------------------------------------------------------------------
  // What is logged, read off the steps alone
  // ---------------------------------------------------------------------------------------------

  /** The last pause or resume, if there is any, was not a pause. */
  predicate Listening(steps: seq<Step>) {
    forall i :: 0 <= i < |steps| && steps[i] == Pause ==> exists j :: i < j < |steps| && steps[j] == Resume
  }

  /** The messages that are added while the log listens, in order. */
  function Heard(steps: seq<Step>): seq<Message> {
    if steps == [] then []
    else
      var front, last := steps[..|steps| - 1], steps[|steps| - 1];
      Heard(front) + if last.Add? && Listening(front) then [last.m] else []
  }

  lemma ListeningSnoc(front: seq<Step>, s: Step)
    ensures Listening(front + [s]) <==> s != Pause && (s == Resume || Listening(front))
  {
    var steps := front + [s];
    assert steps[|front|] == s && forall i :: 0 <= i < |front| ==> steps[i] == front[i];
    if s != Pause && s != Resume && Listening(front) {
      forall i | 0 <= i < |steps| && steps[i] == Pause ensures exists j :: i < j < |steps| && steps[j] == Resume {
        var j :| i < j < |front| && front[j] == Resume;
        assert steps[j] == Resume;
      }
    }
    if s != Pause && s != Resume && Listening(steps) {
      forall i | 0 <= i < |front| && front[i] == Pause ensures exists j :: i < j < |front| && front[j] == Resume {
        assert steps[i] == Pause;
        var j :| i < j < |steps| && steps[j] == Resume;
        assert front[j] == Resume;
      }
    }
  }

  lemma HeardSnoc(front: seq<Step>, s: Step)
    ensures Heard(front + [s]) == Heard(front) + if s.Add? && Listening(front) then [s.m] else []
  {
    assert (front + [s])[..|front|] == front;
  }

  /** In every run, the log has accepted the messages it has heard, and it is running exactly if it listens. */
  lemma {:induction false} AcceptedAreHeard(capacity: nat, steps: seq<Step>)
    requires Run(Start(capacity), steps).Some?
    ensures var st := Run(Start(capacity), steps).value; st.accepted == Heard(steps) && st.running == Listening(steps)
    decreases |steps|
  {
    if steps != [] {
      var front, s := steps[..|steps| - 1], steps[|steps| - 1];
      assert steps == front + [s];
      RunSnoc(Start(capacity), front, s);
      AcceptedAreHeard(capacity, front);
      ListeningSnoc(front, s);
      HeardSnoc(front, s);
    }
  }

  /** Over every interleaving: what is printed is a beginning of what the log has heard; once a worker has stopped,
      everything is printed; and unless a pause has met a full ring or the program was aborted, whatever is not printed
      is in the worker's hand or in the ring. */
  lemma EveryRun(capacity: nat, steps: seq<Step>)
    requires capacity > 0 && Run(Start(capacity), steps).Some?
    ensures var st := Run(Start(capacity), steps).value;
            && st.printed <= Heard(steps)
            && (st.worker == Stopped || st.worker == NoWorker ==> st.printed == Heard(steps))
            && (!Stuck(st) && st.worker != Aborted ==>
                  Heard(steps) == st.printed + InHand(st.worker) + Messages(st.queue))
  {
    RunKeeps(Start(capacity), steps);
    AcceptedAreHeard(capacity, steps);
  }

  // ---------------------------------------------------------------------------------------------
  // When a pause comes to its end
  // ---------------------------------------------------------------------------------------------

  /** How much the worker has still to do. */
  function Work(st: State): nat { 2 * |st.queue| + if st.worker.Holding? then 1 else 0 }

  predicate IsWorker(s: Step) { s == Pop || s == Print }

  /** On its way to the end marker the worker always has a step, and each brings it nearer. */
  lemma WorkerGoesOn(st: State) returns (s: Step)
    requires Inv(st) && Draining(st)
    ensures IsWorker(s) && Enabled(st, s) && Inv(Do(st, s)) && Work(Do(st, s)) < Work(st)
    ensures Draining(Do(st, s)) || Do(st, s).worker == Stopped
  {
    s := if st.worker.Holding? then Print else Pop;
    StepKeeps(st, s);
    if s == Pop && |st.queue| > 1 {
      assert st.queue[1..][|st.queue| - 2] == End;
      assert st.queue[1..][..|st.queue| - 2] == st.queue[..|st.queue| - 1][1..];
    }
  }

  /** Steps of others leave the worker what it has to do, unless they abort the program. */
  lemma OthersDoNotDisturb(st: State, s: Step)
    requires Draining(st) && Enabled(st, s) && !IsWorker(s)
    ensures if s == Resume then Do(st, s).worker == Aborted else Do(st, s) == st
  {
  }

  lemma {:induction false} WorkerEnds(st: State) returns (steps: seq<Step>)
    requires Inv(st) && Draining(st)
    ensures (forall i :: 0 <= i < |steps| ==> IsWorker(steps[i])) && Run(st, steps).Some?
    ensures var last := Run(st, steps).value; last.worker == Stopped && last.printed == st.accepted
    decreases Work(st)
  {
    var s := WorkerGoesOn(st);
    var st' := Do(st, s);
    var rest: seq<Step> := [];
    if Draining(st') {
      rest := WorkerEnds(st');
    } else {
      assert Ended(st');
      assert Run(st', rest) == Some(st');
    }
    steps := [s] + rest;
    assert steps[1..] == rest;
  }

  /** After a pause without a spare slot nothing ever changes for the worker but the message in its hand, until the
      program is aborted. */
  lemma {:induction false} StuckForEver(st: State, steps: seq<Step>)
    requires (Stuck(st) || st.worker == Aborted) && Run(st, steps).Some?
    ensures Stuck(Run(st, steps).value) || Run(st, steps).value.worker == Aborted
    decreases |steps|
  {
    if steps != [] {
      var st' := Do(st, steps[0]);
      assert Stuck(st') || st'.worker == Aborted;
      StuckForEver(st', steps[1..]);
    }
  }

  ghost predicate CanStop(st: State) {
    exists steps :: Stops(st, steps)
  }

  ghost predicate Stops(st: State, steps: seq<Step>) { Run(st, steps).Some? && Run(st, steps).value.worker == Stopped }

  /** A pause can come to its end exactly if a slot was to spare. */
  lemma PauseEndsWithSpareSlot(st: State)
    requires Inv(st) && st.running && Enabled(st, Pause)
    ensures CanStop(Do(st, Pause)) <==> |st.queue| + 1 < st.capacity
  {
    var st' := Do(st, Pause);
    PauseKeeps(st);
    if |st.queue| + 1 < st.capacity {
      assert st'.queue != [] && Draining(st');
      var steps := WorkerEnds(st');
      assert Stops(st', steps);
    } else {
      assert Stuck(st') by { MessagesSnoc(st.queue, End); }
      forall steps ensures !Stops(st', steps) {
        if Run(st', steps).Some? { StuckForEver(st', steps); }
      }
    }
  }

  /** The ring the program starts with, and 255 messages before the worker gets to its first step: the pause hangs. */
  lemma PauseCanHang(ms: seq<Message>)
    requires |ms| == 255
    ensures var st := Run(Start(256), Adds(ms));
            st.Some? && Enabled(st.value, Pause) && !CanStop(Do(st.value, Pause))
  {
    AddsFill(Start(256), ms);
    RunKeeps(Start(256), Adds(ms));
    PauseEndsWithSpareSlot(Run(Start(256), Adds(ms)).value);
  }

  function Adds(ms: seq<Message>): (steps: seq<Step>)
    ensures |steps| == |ms| && forall i :: 0 <= i < |ms| ==> steps[i] == Add(ms[i])
  {
    seq(|ms|, i requires 0 <= i < |ms| => Add(ms[i]))
  }

  lemma {:induction false} AddsFill(st: State, ms: seq<Message>)
    requires st.running && st.worker != Aborted && |st.queue| + |ms| < st.capacity
    ensures var r := Run(st, Adds(ms));
            && r.Some? && r.value.running && r.value.worker == st.worker
            && |r.value.queue| == |st.queue| + |ms| && r.value.capacity == st.capacity
    decreases |ms|
  {
    if ms != [] {
      assert Adds(ms)[1..] == Adds(ms[1..]);
      AddsFill(Do(st, Add(ms[0])), ms[1..]);
    }
  }
}

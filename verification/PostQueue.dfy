/** Handing tasks from other threads to the event loop: a queue under a lock and a pipe that
    carries wake-up bytes, as a state machine over the atomic steps of both sides. */
module PostQueue {

  type Task = nat

  /** Where the loop thread stands: waiting for the pipe, reading it empty, past the read
      that found nothing, or running the tasks it took. */
  datatype Loop = Waiting | Draining | Drained | Running(tasks: seq<Task>)

  /** `writers` counts the posters that have queued a task and not yet tried to write their
      byte. `posted` and `ran` record the tasks in the order they were queued and run. */
  datatype State = State(queue: seq<Task>, bytes: nat, capacity: nat, writers: nat, loop: Loop,
                         posted: seq<Task>, ran: seq<Task>)

  datatype Step =
    | Push(task: Task)      // a poster, on any thread, queues a task
    | Write                 // a poster writes its byte, or finds the pipe full
    | Wake                  // the pipe is readable: onPost starts
    | Read(n: nat)          // onPost reads up to 512 bytes
    | FindEmpty             // onPost's read finds the pipe empty
    | Take                  // onPost swaps the queue out
    | RunTask               // onPost runs the next task
    | Return                // onPost is done

  predicate Enabled(s: State, e: Step) {
    match e
    case Push(_) => true
    case Write => s.writers > 0
    case Wake => s.loop.Waiting? && s.bytes > 0
    case Read(n) => s.loop.Draining? && 1 <= n <= s.bytes && n <= 512
    case FindEmpty => s.loop.Draining? && s.bytes == 0
    case Take => s.loop.Drained?
    case RunTask => s.loop.Running? && s.loop.tasks != []
    case Return => s.loop.Running? && s.loop.tasks == []
  }

  function Next(s: State, e: Step): State
    requires Enabled(s, e)
  {
    match e
    case Push(t) => s.(queue := s.queue + [t], writers := s.writers + 1, posted := s.posted + [t])
    case Write => s.(writers := s.writers - 1, bytes := if s.bytes < s.capacity then s.bytes + 1 else s.bytes)
    case Wake => s.(loop := Draining)
    case Read(n) => s.(bytes := s.bytes - n)
    case FindEmpty => s.(loop := Drained)
    case Take => s.(loop := Running(s.queue), queue := [])
    case RunTask => s.(loop := Running(s.loop.tasks[1..]), ran := s.ran + [s.loop.tasks[0]])
    case Return => s.(loop := Waiting)
  }

  function Start(capacity: nat): State { State([], 0, capacity, 0, Waiting, [], []) }

  function Taken(l: Loop): seq<Task> { if l.Running? then l.tasks else [] }

  /** Every posted task is run, taken or queued, each in exactly one of the three and in
      posting order; and no task waits in the queue without a wake-up on its way. */
  predicate Inv(s: State) {
    && s.capacity >= 1 && s.bytes <= s.capacity
    && s.posted == s.ran + Taken(s.loop) + s.queue
    && (s.queue != [] ==> Awaited(s))
  }

  /** The queue will be looked at: a byte is in the pipe or about to be written, or the loop
      has yet to take the queue. */
  predicate Awaited(s: State) { s.bytes > 0 || s.writers > 0 || s.loop.Draining? || s.loop.Drained? }

  lemma StepKeepsInv(s: State, e: Step)
    requires Inv(s) && Enabled(s, e)
    ensures Inv(Next(s, e))
  {
    if e.RunTask? {
      var t := s.loop.tasks;
      assert s.ran + t + s.queue == (s.ran + [t[0]]) + t[1..] + s.queue;
    }
  }

  /** A run is a sequence of steps each enabled where it is taken. */
  predicate IsRun(s: State, es: seq<Step>)
    decreases |es|
  {
    es == [] || (Enabled(s, es[0]) && IsRun(Next(s, es[0]), es[1..]))
  }

  function After(s: State, es: seq<Step>): State
    requires IsRun(s, es)
    decreases |es|
  {
    if es == [] then s else After(Next(s, es[0]), es[1..])
  }

  lemma {:induction false} RunKeepsInv(s: State, es: seq<Step>)
    requires Inv(s) && IsRun(s, es)
    ensures Inv(After(s, es))
    decreases |es|
  {
    if es != [] {
      StepKeepsInv(s, es[0]);
      RunKeepsInv(Next(s, es[0]), es[1..]);
    }
  }

  /** In every interleaving the tasks run are a prefix of the tasks posted, each once and in
      order; the others are in the loop's hands or in the queue, in order; and while the
      queue is not empty, a byte is in the pipe or about to be written, or the loop has yet
      to take the queue. */
  lemma NoLostWakeup(capacity: nat, es: seq<Step>)
    requires capacity >= 1 && IsRun(Start(capacity), es)
    ensures var s := After(Start(capacity), es);
      && s.ran <= s.posted
      && s.posted[|s.ran|..] == Taken(s.loop) + s.queue
      && (s.queue != [] ==> s.bytes > 0 || s.writers > 0 || s.loop.Draining? || s.loop.Drained?)
  {
    RunKeepsInv(Start(capacity), es);
    var s := After(Start(capacity), es);
    assert s.posted == s.ran + (Taken(s.loop) + s.queue);
  }

  // ------------------------------------------------------------ posted tasks do get run

  /** A step of the loop, or of a poster that has already queued its task. */
  predicate Internal(e: Step) { !e.Push? }

  predicate AllInternal(es: seq<Step>) { forall i :: 0 <= i < |es| ==> Internal(es[i]) }

  /** How many internal steps can follow, at most. A byte can cost a whole round of the loop,
      but while the loop drains the pipe only one more read. */
  function Work(s: State): nat {
    6 * s.writers + |s.queue| + |Taken(s.loop)| +
    match s.loop
    case Waiting => 5 * s.bytes
    case Draining => s.bytes + 3
    case Drained => 5 * s.bytes + 2
    case Running(_) => 5 * s.bytes + 1
  }

  lemma InternalStepsShrinkWork(s: State, e: Step)
    requires Enabled(s, e) && Internal(e)
    ensures Work(Next(s, e)) < Work(s) && Next(s, e).posted == s.posted
  {
  }

  predicate Quiet(s: State) { s.loop.Waiting? && s.bytes == 0 && s.writers == 0 }

  /** The loop never stands still, and never spins, while anything is left to do. */
  lemma WorkGoesOn(s: State) returns (e: Step)
    requires !Quiet(s)
    ensures Internal(e) && Enabled(s, e)
  {
    e := if s.writers > 0 then Write
         else match s.loop
              case Waiting => Wake
              case Draining => if s.bytes == 0 then FindEmpty else Read(1)
              case Drained => Take
              case Running(tasks) => if tasks == [] then Return else RunTask;
  }

  /** However posters and loop are scheduled, a run without further posts is no longer than
      the work there was; when no step is left to take, every posted task has been run. */
  lemma {:induction false} EveryTaskRuns(s: State, es: seq<Step>)
    requires Inv(s) && IsRun(s, es) && AllInternal(es)
    ensures var t := After(s, es);
      && |es| + Work(t) <= Work(s)
      && ((forall e :: Internal(e) ==> !Enabled(t, e)) ==> t.ran == s.posted)
      && t.posted == s.posted
    decreases |es|
  {
    if es != [] {
      assert Internal(es[0]);
      InternalStepsShrinkWork(s, es[0]);
      StepKeepsInv(s, es[0]);
      EveryTaskRuns(Next(s, es[0]), es[1..]);
    } else if forall e :: Internal(e) ==> !Enabled(s, e) {
      if !Quiet(s) {
        var e := WorkGoesOn(s);
        assert false;
      }
      assert s.queue == [] && Taken(s.loop) == [];
    }
  }

  /** So from every state the steps already due bring every posted task to run. */
  lemma {:induction false} EveryTaskCanRun(s: State) returns (es: seq<Step>)
    requires Inv(s)
    ensures IsRun(s, es) && AllInternal(es) && After(s, es).ran == s.posted
    decreases Work(s)
  {
    if Quiet(s) {
      es := [];
      assert s.queue == [] && Taken(s.loop) == [];
    } else {
      var e := WorkGoesOn(s);
      StepKeepsInv(s, e);
      InternalStepsShrinkWork(s, e);
      var rest := EveryTaskCanRun(Next(s, e));
      es := [e] + rest;
      assert es[1..] == rest;
    }
  }
}

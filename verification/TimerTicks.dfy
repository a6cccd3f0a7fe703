/**
 The tick counter: every SIGALRM posts a semaphore from its handler, and the timer thread turns posts
 into increments under a mutex. The handler is installed without SA_RESTART, so a blocked sem_wait can
 also return EINTR, having taken nothing.
 */
module TimerTicks {
  import opened Common

  datatype Pc =
    | Testing    // at the loop condition
    | Waiting    // in sem_wait
    | Sleeping   // took a post, in sleep(1)
    | Locking    // about to take timer_mutex
    | Holding    // owns the mutex, has not incremented
    | Unlocking  // has incremented

  datatype State = State(sem: nat, timer: nat, pc: Pc)

  datatype Label = Alarm | TestLoop | Take | Interrupted | WakeUp | Lock | Increment | Unlock

  const INITIAL := State(0, 0, Testing)

  predicate Enabled(s: State, l: Label) {
    match l
    case Alarm => true
    case TestLoop => s.pc == Testing
    case Take => s.pc == Waiting && s.sem > 0
    case Interrupted => s.pc == Waiting
    case WakeUp => s.pc == Sleeping
    case Lock => s.pc == Locking
    case Increment => s.pc == Holding
    case Unlock => s.pc == Unlocking
  }

  function Step(s: State, l: Label): State
    requires Enabled(s, l)
  {
    match l
    case Alarm => s.(sem := s.sem + 1)
    case TestLoop => s.(pc := Waiting)
    case Take => s.(sem := s.sem - 1, pc := Sleeping)
    case Interrupted => s.(pc := Testing)
    case WakeUp => s.(pc := Locking)
    case Lock => s.(pc := Holding)
    case Increment => s.(timer := s.timer + 1, pc := Unlocking)
    case Unlock => s.(pc := Testing)
  }

  function Exec(run: seq<Label>): Option<State> {
    if run == [] then Some(INITIAL)
    else
      var before := Exec(run[..|run| - 1]);
      var l := run[|run| - 1];
      if before.Some? && Enabled(before.value, l) then Some(Step(before.value, l)) else None
  }

  function Alarms(run: seq<Label>): nat {
    if run == [] then 0 else Alarms(run[..|run| - 1]) + if run[|run| - 1] == Alarm then 1 else 0
  }

  /** A post taken but not yet counted. */
  function InHand(s: State): nat {
    if s.pc in {Sleeping, Locking, Holding} then 1 else 0
  }

  /** In every interleaving no tick is lost and none is counted twice. */
  lemma {:induction false} TicksAreConserved(run: seq<Label>)
    requires Exec(run).Some?
    ensures var s := Exec(run).value;
            Alarms(run) == s.sem + InHand(s) + s.timer
  {
    if run != [] {
      TicksAreConserved(run[..|run| - 1]);
    }
  }

  function Stage(pc: Pc): nat {
    match pc
    case Waiting => 0
    case Testing => 1
    case Unlocking => 2
    case Holding => 3
    case Locking => 4
    case Sleeping => 5
  }

  /** From any reachable state the thread alone can bring the counter up to the number of alarms so far. */
  lemma {:induction false} CounterCatchesUp(run: seq<Label>) returns (tail: seq<Label>)
    requires Exec(run).Some?
    ensures Exec(run + tail).Some?
    ensures forall i :: 0 <= i < |tail| ==> tail[i] != Alarm && tail[i] != Interrupted
    ensures Exec(run + tail).value == State(0, Alarms(run), Waiting)
    decreases Exec(run).value.sem, Stage(Exec(run).value.pc)
  {
    var s := Exec(run).value;
    TicksAreConserved(run);
    if s.pc == Waiting && s.sem == 0 {
      tail := [];
      assert run + tail == run;
    } else {
      var l := match s.pc
        case Testing => TestLoop
        case Waiting => Take
        case Sleeping => WakeUp
        case Locking => Lock
        case Holding => Increment
        case Unlocking => Unlock;
      assert (run + [l])[..|run|] == run;
      var rest := CounterCatchesUp(run + [l]);
      tail := [l] + rest;
      assert run + tail == run + [l] + rest;
    }
  }

  // ---- what the thread and the alarms can do ----

  /** The timer thread's part of a run. */
  function ThreadSteps(run: seq<Label>): seq<Label> {
    if run == [] then []
    else ThreadSteps(run[..|run| - 1]) + if run[|run| - 1] == Alarm then [] else [run[|run| - 1]]
  }

  /** Program order: a taken post is counted under the mutex before the loop condition comes up again; an interrupted
      wait goes straight back to the loop. */
  predicate Follows(a: Label, b: Label) {
    match a
    case TestLoop => b == Take || b == Interrupted
    case Interrupted => b == TestLoop
    case Take => b == WakeUp
    case WakeUp => b == Lock
    case Lock => b == Increment
    case Increment => b == Unlock
    case Unlock => b == TestLoop
    case Alarm => false
  }

  function PcAfter(l: Label): Pc {
    match l
    case TestLoop => Waiting
    case Take => Sleeping
    case WakeUp => Locking
    case Lock => Holding
    case Increment => Unlocking
    case _ => Testing
  }

  /** In every run the thread keeps to that order, starting at the loop condition. */
  lemma {:induction false} ThreadInOrder(run: seq<Label>)
    requires Exec(run).Some?
    ensures var t := ThreadSteps(run);
            && Alarm !in t && (t != [] ==> t[0] == TestLoop)
            && (forall i :: 0 <= i < |t| - 1 ==> Follows(t[i], t[i + 1]))
            && Exec(run).value.pc == (if t == [] then Testing else PcAfter(t[|t| - 1]))
  {
    if run != [] {
      ThreadInOrder(run[..|run| - 1]);
    }
  }

  /** An alarm can come at any moment, and the thread alone can then count it and all before it. */
  lemma {:induction false} EveryAlarmCanBeCounted(run: seq<Label>) returns (tail: seq<Label>)
    requires Exec(run).Some?
    ensures Exec(run + [Alarm] + tail).Some?
    ensures forall i :: 0 <= i < |tail| ==> tail[i] != Alarm && tail[i] != Interrupted
    ensures Exec(run + [Alarm] + tail).value.timer == Alarms(run) + 1
  {
    assert (run + [Alarm])[..|run|] == run;
    tail := CounterCatchesUp(run + [Alarm]);
  }

  /** A wait can be interrupted at any moment, and has then taken nothing. */
  lemma {:induction false} InterruptTakesNothing(run: seq<Label>)
    requires Exec(run).Some? && Exec(run).value.pc == Waiting
    ensures Exec(run + [Interrupted]) == Some(Exec(run).value.(pc := Testing))
  {
    assert (run + [Interrupted])[..|run|] == run;
  }
}

/**
 The system server's exit latch: the main thread waits on a condition variable until a flag is set;
 any number of signal_exit calls set it and signal, each under the same mutex. Waiting releases the
 mutex and falls asleep in one step, and may wake up spuriously.
 */
module ExitLatch {
  import opened Common

  datatype WaiterPc = AtLock | Testing | Asleep | Woken | Leaving | Done
  datatype CallerPc = Locking | Setting | Signalling | Releasing | Finished

  datatype Thread = Waiter | Caller(i: nat)

  datatype State = State(owner: Option<Thread>, flag: bool, waiter: WaiterPc, callers: map<nat, CallerPc>)

  datatype Label =
    | WaiterLocks | WaiterWaits | WaiterLeaves | SpuriousWakeup | WaiterRelocks | WaiterUnlocks
    | Call(i: nat) | CallerLocks(i: nat) | SetFlag(i: nat) | Signal(i: nat) | CallerUnlocks(i: nat)

  const INITIAL := State(None, false, AtLock, map[])

  predicate CallerAt(s: State, i: nat, pc: CallerPc) { i in s.callers && s.callers[i] == pc }

  predicate Enabled(s: State, l: Label) {
    match l
    case WaiterLocks => s.waiter == AtLock && s.owner == None
    case WaiterWaits => s.waiter == Testing && !s.flag
    case WaiterLeaves => s.waiter == Testing && s.flag
    case SpuriousWakeup => s.waiter == Asleep
    case WaiterRelocks => s.waiter == Woken && s.owner == None
    case WaiterUnlocks => s.waiter == Leaving
    case Call(i) => i !in s.callers
    case CallerLocks(i) => CallerAt(s, i, Locking) && s.owner == None
    case SetFlag(i) => CallerAt(s, i, Setting)
    case Signal(i) => CallerAt(s, i, Signalling)
    case CallerUnlocks(i) => CallerAt(s, i, Releasing)
  }

  function Step(s: State, l: Label): State
    requires Enabled(s, l)
  {
    match l
    case WaiterLocks => s.(owner := Some(Waiter), waiter := Testing)
    case WaiterWaits => s.(owner := None, waiter := Asleep)
    case WaiterLeaves => s.(waiter := Leaving)
    case SpuriousWakeup => s.(waiter := Woken)
    case WaiterRelocks => s.(owner := Some(Waiter), waiter := Testing)
    case WaiterUnlocks => s.(owner := None, waiter := Done)
    case Call(i) => s.(callers := s.callers[i := Locking])
    case CallerLocks(i) => s.(owner := Some(Caller(i)), callers := s.callers[i := Setting])
    case SetFlag(i) => s.(flag := true, callers := s.callers[i := Signalling])
    case Signal(i) =>
      s.(callers := s.callers[i := Releasing], waiter := if s.waiter == Asleep then Woken else s.waiter)
    case CallerUnlocks(i) => s.(owner := None, callers := s.callers[i := Finished])
  }

  function Exec(run: seq<Label>): Option<State> {
    if run == [] then Some(INITIAL)
    else
      var before := Exec(run[..|run| - 1]);
      var l := run[|run| - 1];
      if before.Some? && Enabled(before.value, l) then Some(Step(before.value, l)) else None
  }

  lemma {:induction false} ExecSnoc(run: seq<Label>, l: Label)
    ensures Exec(run + [l]) ==
            if Exec(run).Some? && Enabled(Exec(run).value, l) then Some(Step(Exec(run).value, l)) else None
  {
    assert (run + [l])[..|run|] == run;
  }

  predicate InCritical(pc: CallerPc) { pc in {Setting, Signalling, Releasing} }

  ghost predicate Inv(s: State) {
    && (s.owner == Some(Waiter) <==> s.waiter in {Testing, Leaving})
    && (forall i :: i in s.callers ==> (s.owner == Some(Caller(i)) <==> InCritical(s.callers[i])))
    && (s.owner.Some? && s.owner.value.Caller? ==> s.owner.value.i in s.callers)
    && (s.waiter in {Leaving, Done} ==> s.flag)
    && (forall i :: i in s.callers && s.callers[i] in {Signalling, Releasing, Finished} ==> s.flag)
    && (s.flag && s.waiter == Asleep ==>
          s.owner.Some? && s.owner.value.Caller? && CallerAt(s, s.owner.value.i, Signalling))
  }

  lemma {:induction false} RunsKeepInv(run: seq<Label>)
    requires Exec(run).Some?
    ensures Inv(Exec(run).value)
  {
    if run != [] {
      RunsKeepInv(run[..|run| - 1]);
    }
  }

  ghost predicate FlagWasSet(run: seq<Label>) {
    exists k :: 0 <= k < |run| && run[k].SetFlag?
  }

  lemma {:induction false} FlagMeansSet(run: seq<Label>)
    requires Exec(run).Some?
    ensures Exec(run).value.flag <==> FlagWasSet(run)
  {
    if run != [] {
      var k := |run| - 1;
      FlagMeansSet(run[..k]);
      if FlagWasSet(run[..k]) {
        var j :| 0 <= j < k && run[..k][j].SetFlag?;
        assert run[j].SetFlag?;
      }
      if FlagWasSet(run) && !run[k].SetFlag? {
        var j :| 0 <= j < |run| && run[j].SetFlag?;
        assert run[..k][j].SetFlag?;
      }
    }
  }

  /** The server leaves its wait loop only after some signal_exit call has set the flag. */
  lemma {:induction false} LeavesOnlyAfterSignal(run: seq<Label>)
    requires Exec(run).Some? && Exec(run).value.waiter in {Leaving, Done}
    ensures FlagWasSet(run)
  {
    RunsKeepInv(run);
    FlagMeansSet(run);
  }

  /** No wakeup is lost: once the flag is set and no caller stands before its signal, the waiter is not asleep. */
  lemma {:induction false} NoLostWakeup(run: seq<Label>)
    requires Exec(run).Some? && FlagWasSet(run)
    requires forall i :: i in Exec(run).value.callers ==> Exec(run).value.callers[i] != Signalling
    ensures Exec(run).value.waiter != Asleep
  {
    RunsKeepInv(run);
    FlagMeansSet(run);
  }

  /** Mutual exclusion: at most one of the waiter and the callers is between lock and unlock. */
  lemma {:induction false} CriticalSectionsExclude(run: seq<Label>, i: nat, j: nat)
    requires Exec(run).Some?
    requires i in Exec(run).value.callers && j in Exec(run).value.callers
    requires InCritical(Exec(run).value.callers[i])
    ensures Exec(run).value.waiter !in {Testing, Leaving}
    ensures InCritical(Exec(run).value.callers[j]) ==> i == j
  {
    RunsKeepInv(run);
  }

  // ---- progress ----

  function HolderRank(s: State): nat {
    if s.owner.Some? && s.owner.value.Caller? && s.owner.value.i in s.callers then
      match s.callers[s.owner.value.i]
      case Setting => 3
      case Signalling => 2
      case _ => 1
    else 0
  }

  function WaiterRank(pc: WaiterPc): nat {
    match pc
    case Done => 0
    case Leaving => 1
    case Testing => 2
    case AtLock => 3
    case Woken => 3
    case Asleep => 4
  }

  /** Steps still needed before the waiter is done. */
  function Rank(s: State): nat {
    if s.flag then HolderRank(s) + WaiterRank(s.waiter)
    else if s.owner == Some(Waiter) then 13
    else if s.owner == None then 12
    else 11
  }

  /** The step to schedule next, given that call i has begun. */
  function NextStep(s: State, i: nat): Label {
    if s.owner == Some(Waiter) then
      if s.waiter == Leaving then WaiterUnlocks else if s.flag then WaiterLeaves else WaiterWaits
    else if s.owner.Some? && s.owner.value.i in s.callers then
      var j := s.owner.value.i;
      if s.callers[j] == Setting then SetFlag(j) else if s.callers[j] == Signalling then Signal(j) else CallerUnlocks(j)
    else if !s.flag then CallerLocks(i)
    else if s.waiter == AtLock then WaiterLocks
    else WaiterRelocks
  }

  lemma NextStepAdvances(s: State, i: nat)
    requires Inv(s) && i in s.callers && s.waiter != Done
    ensures Enabled(s, NextStep(s, i))
    ensures Rank(Step(s, NextStep(s, i))) < Rank(s)
    ensures i in Step(s, NextStep(s, i)).callers
  {
    if s.owner.Some? && s.owner.value.Caller? {
      assert s.owner == Some(Caller(s.owner.value.i));
      assert InCritical(s.callers[s.owner.value.i]);
    } else {
      assert !InCritical(s.callers[i]);
    }
  }

  /** Once signal_exit has been called, from any reachable state the server can still get out of its wait
      loop, and without the help of a spurious wakeup or another call. */
  lemma {:induction false} ExitStaysReachable(run: seq<Label>, i: nat) returns (tail: seq<Label>)
    requires Exec(run).Some? && i in Exec(run).value.callers
    ensures Exec(run + tail).Some? && Exec(run + tail).value.waiter == Done
    ensures forall k :: 0 <= k < |tail| ==> !tail[k].SpuriousWakeup? && !tail[k].Call?
    decreases Rank(Exec(run).value)
  {
    var s := Exec(run).value;
    if s.waiter == Done {
      tail := [];
      assert run + tail == run;
    } else {
      RunsKeepInv(run);
      NextStepAdvances(s, i);
      var l := NextStep(s, i);
      ExecSnoc(run, l);
      var rest := ExitStaysReachable(run + [l], i);
      tail := [l] + rest;
      assert run + tail == run + [l] + rest;
    }
  }

  /** And from any reachable state signal_exit can be called by one more thread, and then the server gets out. */
  lemma {:induction false} AnyCallEndsTheWait(run: seq<Label>, i: nat) returns (tail: seq<Label>)
    requires Exec(run).Some? && i !in Exec(run).value.callers
    ensures Exec(run + [Call(i)] + tail).Some? && Exec(run + [Call(i)] + tail).value.waiter == Done
    ensures forall k :: 0 <= k < |tail| ==> !tail[k].SpuriousWakeup? && !tail[k].Call?
  {
    ExecSnoc(run, Call(i));
    tail := ExitStaysReachable(run + [Call(i)], i);
  }

  // ---- program order ----

  /** What one signal_exit call does, in order: the flag and the signal lie between lock and unlock. */
  function CallerSteps(i: nat): seq<Label> {
    [Call(i), CallerLocks(i), SetFlag(i), Signal(i), CallerUnlocks(i)]
  }

  function StepsOfCaller(run: seq<Label>, i: nat): seq<Label> {
    if run == [] then []
    else StepsOfCaller(run[..|run| - 1], i) + if run[|run| - 1] in CallerSteps(i) then [run[|run| - 1]] else []
  }

  function CallerStage(s: State, i: nat): nat {
    if i !in s.callers then 0
    else
      match s.callers[i]
      case Locking => 1
      case Setting => 2
      case Signalling => 3
      case Releasing => 4
      case Finished => 5
  }

  lemma CallerStep(s: State, l: Label, i: nat)
    requires Enabled(s, l)
    ensures var k := CallerStage(s, i);
            if l in CallerSteps(i) then k < 5 && l == CallerSteps(i)[k] && CallerStage(Step(s, l), i) == k + 1
            else CallerStage(Step(s, l), i) == k
  {
    assert l in CallerSteps(i) <==>
           l == Call(i) || l == CallerLocks(i) || l == SetFlag(i) || l == Signal(i) || l == CallerUnlocks(i);
  }

  /** In every run each call goes through its steps once, in that order. */
  lemma {:induction false} CallersInOrder(run: seq<Label>, i: nat)
    requires Exec(run).Some?
    ensures CallerStage(Exec(run).value, i) <= 5
    ensures StepsOfCaller(run, i) == CallerSteps(i)[..CallerStage(Exec(run).value, i)]
  {
    if run != [] {
      CallersInOrder(run[..|run| - 1], i);
      CallerStep(Exec(run[..|run| - 1]).value, run[|run| - 1], i);
    }
  }

  predicate IsWaiterStep(l: Label) {
    l.WaiterLocks? || l.WaiterWaits? || l.WaiterLeaves? || l.WaiterRelocks? || l.WaiterUnlocks?
  }

  function WaiterSteps(run: seq<Label>): seq<Label> {
    if run == [] then []
    else WaiterSteps(run[..|run| - 1]) + if IsWaiterStep(run[|run| - 1]) then [run[|run| - 1]] else []
  }

  /** The flag is looked at after every lock and relock, and the mutex released on the way out. */
  predicate WaiterFollows(a: Label, b: Label) {
    match a
    case WaiterLocks => b == WaiterWaits || b == WaiterLeaves
    case WaiterWaits => b == WaiterRelocks
    case WaiterRelocks => b == WaiterWaits || b == WaiterLeaves
    case WaiterLeaves => b == WaiterUnlocks
    case _ => false
  }

  /** Has there been a signal or a spurious wakeup since the waiter last fell asleep? */
  function WokenSince(run: seq<Label>): bool {
    if run == [] then false
    else
      match run[|run| - 1]
      case Signal(_) => true
      case SpuriousWakeup => true
      case WaiterWaits => false
      case _ => WokenSince(run[..|run| - 1])
  }

  predicate WaiterStands(pc: WaiterPc, steps: seq<Label>, woken: bool) {
    if steps == [] then pc == AtLock
    else
      match steps[|steps| - 1]
      case WaiterLocks => pc == Testing
      case WaiterRelocks => pc == Testing
      case WaiterWaits => pc == if woken then Woken else Asleep
      case WaiterLeaves => pc == Leaving
      case _ => pc == Done
  }

  /** In every run the waiter keeps to that order, and comes back from its wait only after a signal or a
      spurious wakeup that came while it slept. */
  lemma {:induction false} WaiterInOrder(run: seq<Label>)
    requires Exec(run).Some?
    ensures var t := WaiterSteps(run);
            && (t != [] ==> t[0] == WaiterLocks)
            && (forall i :: 0 <= i < |t| - 1 ==> WaiterFollows(t[i], t[i + 1]))
            && WaiterStands(Exec(run).value.waiter, t, WokenSince(run))
  {
    if run != [] {
      WaiterInOrder(run[..|run| - 1]);
    }
  }

  /** A sleeping waiter can wake up for no reason; that changes nothing but where it stands. */
  lemma {:induction false} SpuriousWakeupIsPossible(run: seq<Label>)
    requires Exec(run).Some? && Exec(run).value.waiter == Asleep
    ensures Exec(run + [SpuriousWakeup]) == Some(Exec(run).value.(waiter := Woken))
  {
    ExecSnoc(run, SpuriousWakeup);
  }
}

/**
 The two POSIX queues between the input process and the system server: a sensor thread and a command
 thread send, a monitor thread and a camera thread receive. A send to a full queue and a receive from
 an empty one block; all messages have priority 0, so a queue is first in, first out.
 */
module NativeQueues {
  import opened Common

  const NUM_MESSAGES: nat := 10
  const SENSOR_DATA: nat := 1
  const TAKE_PICTURE: nat := 1
  const DUMP_STATE: nat := 2

  datatype QueueId = Monitor | Camera

  datatype Msg = Msg(msgType: nat, param1: nat, param2: nat)

  datatype SensorPc = Sleeping | SendingSample
  datatype CommandPc = Prompt | DumpToCamera | DumpToMonitor | MqToCamera(msgType: nat) | Busy | Exited
  datatype ConsumerPc = Receiving | Handling(m: Msg)

  /** What a consumer does with a message. */
  datatype Action = ReadSample(shmid: nat) | DumpState | TakePicture | DumpCamera | Unknown

  datatype End = End(queue: seq<Msg>, consumer: ConsumerPc, done: seq<Action>)

  datatype State = State(sensor: SensorPc, command: CommandPc, monitor: End, camera: End)

  datatype Label =
    | SensorWakes
    | SensorSends
    | DumpCommand
    | DumpSendsCamera
    | DumpSendsMonitor
    | MqCommand(number: int)
    | MqSends(msgType: nat)
    | BusyCommand
    | ExitCommand
    | Receive(q: QueueId, m: Msg)
    | Handle(q: QueueId)

  const DUMP := Msg(DUMP_STATE, 0, 0)

  /** The sample message carries the id of the shared memory segment. */
  function Sample(shmid: nat): Msg { Msg(SENSOR_DATA, shmid, 0) }

  const IDLE := End([], Receiving, [])
  const INITIAL := State(Sleeping, Prompt, IDLE, IDLE)

  function EndOf(s: State, q: QueueId): End { if q == Monitor then s.monitor else s.camera }

  function WithEnd(s: State, q: QueueId, e: End): State {
    if q == Monitor then s.(monitor := e) else s.(camera := e)
  }

  /** An int argument of the mq command, converted to the unsigned message type. */
  function AsUnsigned(n: int): nat { n % 0x1_0000_0000 }

  function ActionOf(q: QueueId, m: Msg): Action {
    match q
    case Monitor =>
      if m.msgType == SENSOR_DATA then ReadSample(m.param1) else if m.msgType == DUMP_STATE then DumpState else Unknown
    case Camera =>
      if m.msgType == TAKE_PICTURE then TakePicture else if m.msgType == DUMP_STATE then DumpCamera else Unknown
  }

  /** Which queue a label sends to, and what. */
  function SendOf(l: Label, shmid: nat): Option<(QueueId, Msg)> {
    match l
    case SensorSends => Some((Monitor, Sample(shmid)))
    case DumpSendsCamera => Some((Camera, DUMP))
    case DumpSendsMonitor => Some((Monitor, DUMP))
    case MqSends(t) => Some((Camera, Msg(t, 0, 0)))
    case _ => None
  }

  /** The sending thread stands at that send. */
  predicate SenderReady(s: State, l: Label) {
    match l
    case SensorSends => s.sensor == SendingSample
    case DumpSendsCamera => s.command == DumpToCamera
    case DumpSendsMonitor => s.command == DumpToMonitor
    case MqSends(t) => s.command == MqToCamera(t)
    case _ => false
  }

  predicate Enabled(s: State, l: Label, shmid: nat) {
    match l
    case SensorWakes => s.sensor == Sleeping
    case DumpCommand => s.command == Prompt
    case MqCommand(n) => s.command == Prompt && -0x8000_0000 <= n < 0x8000_0000
    case BusyCommand => s.command == Prompt
    case ExitCommand => s.command == Prompt
    case Receive(q, m) => EndOf(s, q).consumer == Receiving && EndOf(s, q).queue != [] && EndOf(s, q).queue[0] == m
    case Handle(q) => EndOf(s, q).consumer.Handling?
    case _ => SenderReady(s, l) && |EndOf(s, SendOf(l, shmid).value.0).queue| < NUM_MESSAGES
  }

  function Put(s: State, q: QueueId, m: Msg): State {
    WithEnd(s, q, EndOf(s, q).(queue := EndOf(s, q).queue + [m]))
  }

  function Step(s: State, l: Label, shmid: nat): State
    requires Enabled(s, l, shmid)
  {
    match l
    case SensorWakes => s.(sensor := SendingSample)
    case SensorSends => Put(s, Monitor, Sample(shmid)).(sensor := Sleeping)
    case DumpCommand => s.(command := DumpToCamera)
    case DumpSendsCamera => Put(s, Camera, DUMP).(command := DumpToMonitor)
    case DumpSendsMonitor => Put(s, Monitor, DUMP).(command := Prompt)
    case MqCommand(n) => s.(command := MqToCamera(AsUnsigned(n)))
    case MqSends(t) => Put(s, Camera, Msg(t, 0, 0)).(command := Prompt)
    case BusyCommand => s.(command := Busy)
    case ExitCommand => s.(command := Exited)
    case Receive(q, m) =>
      var e := EndOf(s, q);
      WithEnd(s, q, e.(queue := e.queue[1..], consumer := Handling(m)))
    case Handle(q) =>
      var e := EndOf(s, q);
      WithEnd(s, q, e.(consumer := Receiving, done := e.done + [ActionOf(q, e.consumer.m)]))
  }

  function Exec(run: seq<Label>, shmid: nat): Option<State> {
    if run == [] then Some(INITIAL)
    else
      var before := Exec(run[..|run| - 1], shmid);
      var l := run[|run| - 1];
      if before.Some? && Enabled(before.value, l, shmid) then Some(Step(before.value, l, shmid)) else None
  }

  lemma {:induction false} ExecSnoc(run: seq<Label>, l: Label, shmid: nat)
    ensures Exec(run + [l], shmid) ==
            if Exec(run, shmid).Some? && Enabled(Exec(run, shmid).value, l, shmid)
            then Some(Step(Exec(run, shmid).value, l, shmid)) else None
  {
    assert (run + [l])[..|run|] == run;
  }

  // ---- what the labels of a run say ----

  function SentTo(run: seq<Label>, q: QueueId, shmid: nat): seq<Msg> {
    if run == [] then []
    else
      var sent := SendOf(run[|run| - 1], shmid);
      SentTo(run[..|run| - 1], q, shmid) + if sent.Some? && sent.value.0 == q then [sent.value.1] else []
  }

  function ReceivedFrom(run: seq<Label>, q: QueueId): seq<Msg> {
    if run == [] then []
    else
      var l := run[|run| - 1];
      ReceivedFrom(run[..|run| - 1], q) + if l.Receive? && l.q == q then [l.m] else []
  }

  function Times(run: seq<Label>, l: Label): nat {
    if run == [] then 0
    else Times(run[..|run| - 1], l) + if run[|run| - 1] == l then 1 else 0
  }

  function Actions(q: QueueId, ms: seq<Msg>): seq<Action> {
    if ms == [] then [] else Actions(q, ms[..|ms| - 1]) + [ActionOf(q, ms[|ms| - 1])]
  }

  // ---- main results ----

  /** How one step changes one queue and its consumer. */
  lemma {:induction false} QueueStep(s: State, l: Label, q: QueueId, shmid: nat)
    requires Enabled(s, l, shmid)
    ensures var e, e', sent := EndOf(s, q), EndOf(Step(s, l, shmid), q), SendOf(l, shmid);
            if sent.Some? && sent.value.0 == q then
              |e.queue| < NUM_MESSAGES && e' == e.(queue := e.queue + [sent.value.1])
            else if l.Receive? && l.q == q then
              && e.queue == [l.m] + e'.queue && e'.done == e.done
              && e.consumer == Receiving && e'.consumer == Handling(l.m)
            else if l.Handle? && l.q == q then
              && e.consumer.Handling?
              && e' == e.(consumer := Receiving, done := e.done + [ActionOf(q, e.consumer.m)])
            else e' == e
  {
  }

  /** In every run each queue stays within its capacity, and what was received followed by what is
      queued is exactly what was sent, in order. */
  lemma {:induction false} QueueConservation(run: seq<Label>, q: QueueId, shmid: nat)
    requires Exec(run, shmid).Some?
    ensures var e := EndOf(Exec(run, shmid).value, q);
            && |e.queue| <= NUM_MESSAGES
            && ReceivedFrom(run, q) + e.queue == SentTo(run, q, shmid)
  {
    if run != [] {
      var prefix, l := run[..|run| - 1], run[|run| - 1];
      QueueConservation(prefix, q, shmid);
      QueueStep(Exec(prefix, shmid).value, l, q, shmid);
    }
  }

  /** Each consumer acts once on every message it received, in the order they were sent. */
  lemma {:induction false} ActionsFollowSends(run: seq<Label>, q: QueueId, shmid: nat)
    requires Exec(run, shmid).Some?
    ensures var e := EndOf(Exec(run, shmid).value, q);
            var received := ReceivedFrom(run, q);
            && received <= SentTo(run, q, shmid)
            && (e.consumer.Handling? ==> received != [] && received[|received| - 1] == e.consumer.m)
            && e.done == Actions(q, if e.consumer.Handling? then received[..|received| - 1] else received)
  {
    QueueConservation(run, q, shmid);
    if run != [] {
      var prefix, l := run[..|run| - 1], run[|run| - 1];
      ActionsFollowSends(prefix, q, shmid);
      QueueStep(Exec(prefix, shmid).value, l, q, shmid);
      var before, received := ReceivedFrom(prefix, q), ReceivedFrom(run, q);
      if l.Receive? && l.q == q {
        assert received[..|received| - 1] == before;
      } else {
        assert received == before;
      }
    }
  }

  /** The dump command has put one more dump into the camera queue than into the monitor queue exactly
      while it stands between its two sends, and equally many otherwise. */
  lemma {:induction false} DumpsAreBalanced(run: seq<Label>, shmid: nat)
    requires Exec(run, shmid).Some?
    ensures Times(run, DumpSendsCamera) ==
            Times(run, DumpSendsMonitor) + if Exec(run, shmid).value.command == DumpToMonitor then 1 else 0
  {
    if run != [] {
      DumpsAreBalanced(run[..|run| - 1], shmid);
    }
  }

  // ---- progress ----

  function Backlog(e: End): nat { 2 * |e.queue| + if e.consumer.Handling? then 1 else 0 }

  predicate ConsumerStep(l: Label, q: QueueId) { (l.Receive? || l.Handle?) && l.q == q }

  /** A consumer with something to do can do it, and sends nothing. */
  lemma {:induction false} ConsumerAdvances(run: seq<Label>, q: QueueId, shmid: nat) returns (l: Label)
    requires Exec(run, shmid).Some? && Backlog(EndOf(Exec(run, shmid).value, q)) > 0
    ensures ConsumerStep(l, q) && Exec(run + [l], shmid).Some?
    ensures var s, s' := Exec(run, shmid).value, Exec(run + [l], shmid).value;
            && s'.sensor == s.sensor && s'.command == s.command
            && Backlog(EndOf(s', q)) == Backlog(EndOf(s, q)) - 1
    ensures SentTo(run + [l], q, shmid) == SentTo(run, q, shmid)
  {
    var e := EndOf(Exec(run, shmid).value, q);
    l := if e.consumer.Handling? then Handle(q) else Receive(q, e.queue[0]);
    ExecSnoc(run, l, shmid);
    QueueStep(Exec(run, shmid).value, l, q, shmid);
    assert (run + [l])[..|run|] == run;
  }

  /** With an empty queue and an idle consumer every message ever sent has been acted on. */
  lemma {:induction false} NothingLeft(run: seq<Label>, q: QueueId, shmid: nat)
    requires Exec(run, shmid).Some? && Backlog(EndOf(Exec(run, shmid).value, q)) == 0
    ensures EndOf(Exec(run, shmid).value, q) == End([], Receiving, Actions(q, SentTo(run, q, shmid)))
  {
    QueueConservation(run, q, shmid);
    ActionsFollowSends(run, q, shmid);
    assert ReceivedFrom(run, q) + [] == ReceivedFrom(run, q);
  }

  /** From any reachable state a consumer on its own can empty its queue, and has then acted on every message
      ever sent to it. */
  lemma {:induction false} QueueDrains(run: seq<Label>, q: QueueId, shmid: nat) returns (tail: seq<Label>)
    requires Exec(run, shmid).Some?
    ensures Exec(run + tail, shmid).Some?
    ensures forall i :: 0 <= i < |tail| ==> ConsumerStep(tail[i], q)
    ensures |tail| == Backlog(EndOf(Exec(run, shmid).value, q))
    ensures var s, s' := Exec(run, shmid).value, Exec(run + tail, shmid).value;
            && s'.sensor == s.sensor && s'.command == s.command
            && EndOf(s', q) == End([], Receiving, Actions(q, SentTo(run, q, shmid)))
    decreases Backlog(EndOf(Exec(run, shmid).value, q))
  {
    if Backlog(EndOf(Exec(run, shmid).value, q)) == 0 {
      NothingLeft(run, q, shmid);
      tail := [];
      assert run + tail == run;
    } else {
      var l := ConsumerAdvances(run, q, shmid);
      var rest := QueueDrains(run + [l], q, shmid);
      tail := [l] + rest;
      assert run + tail == run + [l] + rest;
    }
  }

  /** While a message is pending its consumer has a step to take: it is never stuck. */
  lemma {:induction false} PendingMessageMoves(run: seq<Label>, q: QueueId, shmid: nat)
    requires Exec(run, shmid).Some? && EndOf(Exec(run, shmid).value, q).queue != []
    ensures exists l :: ConsumerStep(l, q) && Exec(run + [l], shmid).Some?
  {
    var l := ConsumerAdvances(run, q, shmid);
  }

  /** A thread blocked on a full queue can always complete its send after steps of that queue's consumer alone. */
  lemma {:induction false} BlockedSendCompletes(run: seq<Label>, l: Label, shmid: nat) returns (tail: seq<Label>)
    requires Exec(run, shmid).Some? && SenderReady(Exec(run, shmid).value, l)
    ensures forall i :: 0 <= i < |tail| ==> ConsumerStep(tail[i], SendOf(l, shmid).value.0)
    ensures Exec(run + tail + [l], shmid).Some?
  {
    tail := QueueDrains(run, SendOf(l, shmid).value.0, shmid);
    ExecSnoc(run + tail, l, shmid);
  }

  // ---- what each sender's messages lead to ----

  /** The action that a send calls for at the end of this queue. */
  function Duty(l: Label, q: QueueId, shmid: nat): seq<Action> {
    match l
    case SensorSends => if q == Monitor then [ReadSample(shmid)] else []
    case DumpSendsMonitor => if q == Monitor then [DumpState] else []
    case DumpSendsCamera => if q == Camera then [DumpCamera] else []
    case MqSends(t) =>
      if q == Camera then [if t == 1 then TakePicture else if t == 2 then DumpCamera else Unknown] else []
    case _ => []
  }

  function Duties(run: seq<Label>, q: QueueId, shmid: nat): seq<Action> {
    if run == [] then [] else Duties(run[..|run| - 1], q, shmid) + Duty(run[|run| - 1], q, shmid)
  }

  lemma DutyOfSend(l: Label, q: QueueId, shmid: nat)
    ensures var sent := SendOf(l, shmid);
            Duty(l, q, shmid) == if sent.Some? && sent.value.0 == q then [ActionOf(q, sent.value.1)] else []
  {
  }

  lemma {:induction false} ActionsSnoc(q: QueueId, ms: seq<Msg>, m: Msg)
    ensures Actions(q, ms + [m]) == Actions(q, ms) + [ActionOf(q, m)]
  {
    assert (ms + [m])[..|ms|] == ms;
  }

  lemma {:induction false} SendsMeanDuties(run: seq<Label>, q: QueueId, shmid: nat)
    ensures Actions(q, SentTo(run, q, shmid)) == Duties(run, q, shmid)
  {
    if run != [] {
      var prefix, l := run[..|run| - 1], run[|run| - 1];
      SendsMeanDuties(prefix, q, shmid);
      DutyOfSend(l, q, shmid);
      var sent := SendOf(l, shmid);
      if sent.Some? && sent.value.0 == q {
        ActionsSnoc(q, SentTo(prefix, q, shmid), sent.value.1);
      } else {
        assert SentTo(run, q, shmid) == SentTo(prefix, q, shmid);
      }
    }
  }

  lemma {:induction false} ActionsPrefix(q: QueueId, ms: seq<Msg>, more: seq<Msg>)
    requires ms <= more
    ensures Actions(q, ms) <= Actions(q, more)
  {
    if |ms| < |more| {
      var shorter := more[..|more| - 1];
      assert ms <= shorter;
      ActionsPrefix(q, ms, shorter);
    } else {
      assert ms == more;
    }
  }

  /**
   In every run a consumer has done a prefix of what the sends to it call for, in their order: one reading
   of the shared memory for each sample, one dump at either end for each dump command, and for each
   `mq camera` command a picture for type 1, a dump for type 2 and nothing known for the others.
   */
  lemma {:induction false} DutiesAreDone(run: seq<Label>, q: QueueId, shmid: nat)
    requires Exec(run, shmid).Some?
    ensures var e := EndOf(Exec(run, shmid).value, q);
            && e.done <= Duties(run, q, shmid)
            && (Backlog(e) == 0 ==> e.done == Duties(run, q, shmid))
  {
    ActionsFollowSends(run, q, shmid);
    SendsMeanDuties(run, q, shmid);
    var e, received := EndOf(Exec(run, shmid).value, q), ReceivedFrom(run, q);
    var handled := if e.consumer.Handling? then received[..|received| - 1] else received;
    ActionsPrefix(q, handled, SentTo(run, q, shmid));
    if Backlog(e) == 0 {
      NothingLeft(run, q, shmid);
    }
  }

  // ---- what the senders can do ----

  /** A send blocks exactly when ten messages are queued. */
  lemma {:induction false} SendBlocksIffFull(run: seq<Label>, l: Label, shmid: nat)
    requires Exec(run, shmid).Some? && SenderReady(Exec(run, shmid).value, l)
    ensures Exec(run + [l], shmid).Some? <==>
            |EndOf(Exec(run, shmid).value, SendOf(l, shmid).value.0).queue| < 10
  {
    ExecSnoc(run, l, shmid);
  }

  lemma {:induction false} ConsumersHaveNoDuties(run: seq<Label>, tail: seq<Label>, q: QueueId, shmid: nat)
    requires forall i :: 0 <= i < |tail| ==> tail[i].Receive? || tail[i].Handle?
    ensures Duties(run + tail, q, shmid) == Duties(run, q, shmid)
  {
    if tail == [] {
      assert run + tail == run;
    } else {
      var k := |tail| - 1;
      assert (run + tail)[..|run + tail| - 1] == run + tail[..k];
      ConsumersHaveNoDuties(run, tail[..k], q, shmid);
    }
  }

  /** The thread a send returns to goes on, the other one stands still. */
  ghost predicate SentAndOn(s: State, l: Label, s': State) {
    && (if l == SensorSends then s'.sensor == Sleeping else s'.sensor == s.sensor)
    && s'.command == match l
                     case DumpSendsCamera => DumpToMonitor
                     case DumpSendsMonitor => Prompt
                     case MqSends(_) => Prompt
                     case _ => s.command
  }

  lemma SendMovesOn(s: State, l: Label, shmid: nat)
    requires Enabled(s, l, shmid) && SenderReady(s, l)
    ensures SentAndOn(s, l, Step(s, l, shmid))
  {
  }

  lemma {:induction false} DrainedAfterSend(run: seq<Label>, l: Label, q: QueueId, rest: seq<Label>, shmid: nat)
    requires forall i :: 0 <= i < |rest| ==> ConsumerStep(rest[i], q)
    requires Exec(run + [l] + rest, shmid).Some?
    requires EndOf(Exec(run + [l] + rest, shmid).value, q).done == Actions(q, SentTo(run + [l], q, shmid))
    ensures EndOf(Exec(run + [l] + rest, shmid).value, q).done == Duties(run, q, shmid) + Duty(l, q, shmid)
  {
    SendsMeanDuties(run + [l], q, shmid);
    assert (run + [l])[..|run|] == run;
  }

  lemma {:induction false} DrainAround(run: seq<Label>, l: Label, q: QueueId, shmid: nat) returns (rest: seq<Label>)
    requires Exec(run, shmid).Some? && SenderReady(Exec(run, shmid).value, l)
    requires q == SendOf(l, shmid).value.0 && |EndOf(Exec(run, shmid).value, q).queue| < NUM_MESSAGES
    ensures Exec(run + [l] + rest, shmid).Some?
    ensures forall i :: 0 <= i < |rest| ==> ConsumerStep(rest[i], q)
    ensures EndOf(Exec(run + [l] + rest, shmid).value, q).done == Duties(run, q, shmid) + Duty(l, q, shmid)
    ensures SentAndOn(Exec(run, shmid).value, l, Exec(run + [l] + rest, shmid).value)
  {
    ExecSnoc(run, l, shmid);
    SendMovesOn(Exec(run, shmid).value, l, shmid);
    rest := QueueDrains(run + [l], q, shmid);
    DrainedAfterSend(run, l, q, rest, shmid);
  }

  /** A send can be completed and seen through: what its consumer has then done ends with the send's duty, and
      the sender has gone on. */
  lemma {:induction false} SendIsSeenThrough(run: seq<Label>, l: Label, q: QueueId, shmid: nat)
    returns (tail: seq<Label>)
    requires Exec(run, shmid).Some? && SenderReady(Exec(run, shmid).value, l)
    requires q == SendOf(l, shmid).value.0
    ensures Exec(run + tail, shmid).Some?
    ensures forall i :: 0 <= i < |tail| ==> tail[i] == l || ConsumerStep(tail[i], q)
    ensures EndOf(Exec(run + tail, shmid).value, q).done == Duties(run, q, shmid) + Duty(l, q, shmid)
    ensures SentAndOn(Exec(run, shmid).value, l, Exec(run + tail, shmid).value)
  {
    var wait := QueueDrains(run, q, shmid);
    ConsumersHaveNoDuties(run, wait, q, shmid);
    var rest := DrainAround(run + wait, l, q, shmid);
    tail := wait + [l] + rest;
    assert run + tail == run + wait + [l] + rest;
  }

  /** Every command the shell knows here can be given at the prompt, and the sensor can always wake up. */
  lemma {:induction false} PromptTakesCommands(run: seq<Label>, l: Label, shmid: nat)
    requires Exec(run, shmid).Some?
    requires var s := Exec(run, shmid).value;
             || (l == SensorWakes && s.sensor == Sleeping)
             || (s.command == Prompt && (l == DumpCommand || l == BusyCommand || l == ExitCommand))
             || (s.command == Prompt && l.MqCommand? && -0x8000_0000 <= l.number < 0x8000_0000)
    ensures Exec(run + [l], shmid).Some?
    ensures l == SensorWakes ==> SenderReady(Exec(run + [l], shmid).value, SensorSends)
    ensures l == DumpCommand ==> SenderReady(Exec(run + [l], shmid).value, DumpSendsCamera)
    ensures l.MqCommand? ==>
              var t := if l.number < 0 then l.number + 0x1_0000_0000 else l.number;
              SenderReady(Exec(run + [l], shmid).value, MqSends(t))
  {
    ExecSnoc(run, l, shmid);
  }

  ghost predicate EndsWith(done: seq<Action>, a: Action) { done != [] && done[|done| - 1] == a }

  /** Steps that neither send to a queue nor belong to its consumer leave that end alone. */
  lemma {:induction false} OnlyItsOwnQueue(run: seq<Label>, tail: seq<Label>, q: QueueId, shmid: nat)
    requires Exec(run + tail, shmid).Some?
    requires forall i :: 0 <= i < |tail| ==> !ConsumerStep(tail[i], q) && Duty(tail[i], q, shmid) == []
    ensures Exec(run, shmid).Some?
    ensures EndOf(Exec(run + tail, shmid).value, q) == EndOf(Exec(run, shmid).value, q)
  {
    if tail == [] {
      assert run + tail == run;
    } else {
      var k := |tail| - 1;
      assert run + tail == run + tail[..k] + [tail[k]];
      ExecSnoc(run + tail[..k], tail[k], shmid);
      QueueStep(Exec(run + tail[..k], shmid).value, tail[k], q, shmid);
      OnlyItsOwnQueue(run, tail[..k], q, shmid);
    }
  }

  lemma {:induction false} DumpReachesOne(run: seq<Label>, l: Label, q: QueueId, shmid: nat) returns (tail: seq<Label>)
    requires Exec(run, shmid).Some? && SenderReady(Exec(run, shmid).value, l)
    requires (l == DumpSendsCamera && q == Camera) || (l == DumpSendsMonitor && q == Monitor)
    ensures Exec(run + tail, shmid).Some?
    ensures EndsWith(EndOf(Exec(run + tail, shmid).value, q).done, if q == Camera then DumpCamera else DumpState)
    ensures Exec(run + tail, shmid).value.command == if q == Camera then DumpToMonitor else Prompt
    ensures var other := if q == Camera then Monitor else Camera;
            EndOf(Exec(run + tail, shmid).value, other) == EndOf(Exec(run, shmid).value, other)
  {
    tail := SendIsSeenThrough(run, l, q, shmid);
    OnlyItsOwnQueue(run, tail, if q == Camera then Monitor else Camera, shmid);
  }

  /** From the prompt, a dump command ends with both processes' dumps done and the prompt back. */
  lemma {:induction false} DumpCommandIsDone(run: seq<Label>, shmid: nat) returns (tail: seq<Label>)
    requires Exec(run, shmid).Some? && Exec(run, shmid).value.command == Prompt
    ensures Exec(run + tail, shmid).Some? && Exec(run + tail, shmid).value.command == Prompt
    ensures EndsWith(EndOf(Exec(run + tail, shmid).value, Camera).done, DumpCamera)
    ensures EndsWith(EndOf(Exec(run + tail, shmid).value, Monitor).done, DumpState)
  {
    PromptTakesCommands(run, DumpCommand, shmid);
    var toCamera := DumpReachesOne(run + [DumpCommand], DumpSendsCamera, Camera, shmid);
    var half := run + [DumpCommand] + toCamera;
    var toMonitor := DumpReachesOne(half, DumpSendsMonitor, Monitor, shmid);
    tail := [DumpCommand] + toCamera + toMonitor;
    assert run + tail == half + toMonitor;
  }

  // ---- program order ----

  datatype Thread = SensorThread | CommandThread | Consumer(q: QueueId)

  function ThreadOf(l: Label): Thread {
    match l
    case SensorWakes => SensorThread
    case SensorSends => SensorThread
    case Receive(q, _) => Consumer(q)
    case Handle(q) => Consumer(q)
    case _ => CommandThread
  }

  function StepsOf(run: seq<Label>, th: Thread): seq<Label> {
    if run == [] then []
    else StepsOf(run[..|run| - 1], th) + if ThreadOf(run[|run| - 1]) == th then [run[|run| - 1]] else []
  }

  /** A step that begins a round of its thread's loop. */
  predicate Begins(l: Label) {
    l.SensorWakes? || l.Receive? || l.DumpCommand? || l.MqCommand? || l.BusyCommand? || l.ExitCommand?
  }

  /** What a thread may do next: a sample is sent before the next sleep, a dump goes to the camera and then to
      the monitor, a message is handled before the next is received, and the busy loop and the exit are final. */
  predicate Follows(a: Label, b: Label) {
    match a
    case SensorWakes => b == SensorSends
    case DumpCommand => b == DumpSendsCamera
    case DumpSendsCamera => b == DumpSendsMonitor
    case MqCommand(n) => b == MqSends(AsUnsigned(n))
    case Receive(q, _) => b == Handle(q)
    case BusyCommand => false
    case ExitCommand => false
    case _ => Begins(b)
  }

  /** Where a thread stands once its last step was this one. */
  predicate Stands(s: State, th: Thread, steps: seq<Label>) {
    match th
    case SensorThread => s.sensor == if steps != [] && Last(steps) == SensorWakes then SendingSample else Sleeping
    case CommandThread =>
      s.command == (if steps == [] then Prompt
                    else
                      match Last(steps)
                      case DumpCommand => DumpToCamera
                      case DumpSendsCamera => DumpToMonitor
                      case MqCommand(n) => MqToCamera(AsUnsigned(n))
                      case BusyCommand => Busy
                      case ExitCommand => Exited
                      case _ => Prompt)
    case Consumer(q) =>
      EndOf(s, q).consumer == if steps != [] && Last(steps).Receive? then Handling(Last(steps).m) else Receiving
  }

  function Last(steps: seq<Label>): Label
    requires steps != []
  {
    steps[|steps| - 1]
  }

  lemma StandsStep(s: State, l: Label, th: Thread, steps: seq<Label>, shmid: nat)
    requires Enabled(s, l, shmid) && Stands(s, th, steps)
    requires steps != [] ==> ThreadOf(Last(steps)) == th
    ensures if ThreadOf(l) == th
            then
              && Stands(Step(s, l, shmid), th, steps + [l])
              && if steps == [] then Begins(l) else Follows(Last(steps), l)
            else Stands(Step(s, l, shmid), th, steps)
  {
  }

  /** In every run each thread keeps to its program's order. */
  lemma {:induction false} ThreadsInOrder(run: seq<Label>, th: Thread, shmid: nat)
    requires Exec(run, shmid).Some?
    ensures var t := StepsOf(run, th);
            && (t != [] ==> Begins(t[0]) && ThreadOf(Last(t)) == th)
            && (forall i :: 0 <= i < |t| - 1 ==> Follows(t[i], t[i + 1]))
            && Stands(Exec(run, shmid).value, th, t)
  {
    if run != [] {
      var prefix, l := run[..|run| - 1], run[|run| - 1];
      ThreadsInOrder(prefix, th, shmid);
      StandsStep(Exec(prefix, shmid).value, l, th, StepsOf(prefix, th), shmid);
    }
  }
}

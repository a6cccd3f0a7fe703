/**
 The websocket hub as a state machine over interleaved steps: the hub goroutine, any number of
 senders of status messages, and any number of clients, each with its own program counter.
 All three hub channels are unbuffered, so a send and the hub's receive are one step.
 */
module HubProtocol {
  import opened Common

  type ClientId = nat
  type SenderId = nat

  /** The JSON object that one status message carries. */
  datatype Payload = Payload(robotId: nat, hostname: string, temperature: string)

  /** Where the goroutines that serve one connection stand. */
  datatype ClientPc =
    | AtRegister    // ServeHTTP blocked in `register <- client`
    | BeforeRead    // register consumed, reader goroutine not yet started
    | Reading       // in the loop of Client.Read
    | AtUnregister  // the loop is over, blocked in `unregister <- c`
    | Closing       // unregister consumed, socket still open
    | Closed

  /** `attempted` is the log of WriteJSON calls on this client's socket. */
  datatype Client = Client(pc: ClientPc, send: Option<Payload>, attempted: seq<Payload>)

  /** Where the hub goroutine stands; the last two are inside the loop over the clients. */
  datatype HubPc =
    | Selecting
    | Ranging(msg: Payload, remaining: set<ClientId>)
    | Assigned(msg: Payload, current: ClientId, remaining: set<ClientId>)

  datatype State = State(hub: HubPc, clients: set<ClientId>, conns: map<ClientId, Client>,
                         blocked: map<SenderId, Payload>)

  datatype Label =
    | Connect(c: ClientId)
    | Register(c: ClientId)
    | StartReader(c: ClientId)
    | ReadMessage(c: ClientId)
    | ReadError(c: ClientId)
    | Unregister(c: ClientId)
    | CloseSocket(c: ClientId)
    | Offer(p: SenderId, m: Payload)
    | Accept(p: SenderId, m: Payload)
    | Pick(c: ClientId)
    | WriteCurrent
    | EndRange

  const INITIAL := State(Selecting, {}, map[], map[])

  predicate IsAt(s: State, c: ClientId, pc: ClientPc) {
    c in s.conns && s.conns[c].pc == pc
  }

  predicate Enabled(s: State, l: Label) {
    match l
    case Connect(c) => c !in s.conns
    case Register(c) => s.hub == Selecting && IsAt(s, c, AtRegister)
    case StartReader(c) => IsAt(s, c, BeforeRead)
    case ReadMessage(c) => IsAt(s, c, Reading)
    case ReadError(c) => IsAt(s, c, Reading)
    case Unregister(c) => s.hub == Selecting && IsAt(s, c, AtUnregister)
    case CloseSocket(c) => IsAt(s, c, Closing)
    case Offer(p, m) => p !in s.blocked
    case Accept(p, m) => s.hub == Selecting && p in s.blocked && s.blocked[p] == m
    case Pick(c) => s.hub.Ranging? && c in s.hub.remaining && c in s.conns
    case WriteCurrent => s.hub.Assigned? && s.hub.current in s.conns && s.conns[s.hub.current].send.Some?
    case EndRange => s.hub.Ranging? && s.hub.remaining == {}
  }

  /** A step of the hub inside a broadcast. */
  predicate RangeStep(l: Label) { l.Pick? || l.WriteCurrent? || l.EndRange? }

  function MoveTo(s: State, c: ClientId, pc: ClientPc): State
    requires c in s.conns
  {
    s.(conns := s.conns[c := s.conns[c].(pc := pc)])
  }

  /** One step. Reading a message changes nothing: the router never gets a rule, so no handler is found. */
  function Step(s: State, l: Label): State
    requires Enabled(s, l)
  {
    match l
    case Connect(c) => s.(conns := s.conns[c := Client(AtRegister, None, [])])
    case Register(c) => MoveTo(s, c, BeforeRead).(clients := s.clients + {c})
    case StartReader(c) => MoveTo(s, c, Reading)
    case ReadMessage(c) => s
    case ReadError(c) => MoveTo(s, c, AtUnregister)
    case Unregister(c) => MoveTo(s, c, Closing).(clients := s.clients - {c})
    case CloseSocket(c) => MoveTo(s, c, Closed)
    case Offer(p, m) => s.(blocked := s.blocked[p := m])
    case Accept(p, m) => s.(hub := Ranging(m, s.clients), blocked := s.blocked - {p})
    case Pick(c) =>
      s.(hub := Assigned(s.hub.msg, c, s.hub.remaining - {c}),
         conns := s.conns[c := s.conns[c].(send := Some(s.hub.msg))])
    case WriteCurrent =>
      var cl := s.conns[s.hub.current];
      s.(hub := Ranging(s.hub.msg, s.hub.remaining),
         conns := s.conns[s.hub.current := cl.(attempted := cl.attempted + [cl.send.value])])
    case EndRange => s.(hub := Selecting)
  }

  /** The state a run ends in, when every label of the run is enabled where it is taken. */
  function Exec(run: seq<Label>): Option<State> {
    if run == [] then Some(INITIAL)
    else
      var before := Exec(run[..|run| - 1]);
      var l := run[|run| - 1];
      if before.Some? && Enabled(before.value, l) then Some(Step(before.value, l)) else None
  }

  lemma {:induction false} ExecSnoc(run: seq<Label>, l: Label)
    ensures Exec(run + [l]) ==
            if Exec(run).Some? && Enabled(Exec(run).value, l) then Some(Step(Exec(run).value, l)) else None
  {
    assert (run + [l])[..|run|] == run;
  }

  // ---- what a run's labels say, independently of the state ----

  /** The messages the hub accepted, in order. */
  function Broadcasts(run: seq<Label>): seq<Payload> {
    if run == [] then []
    else
      var l := run[|run| - 1];
      Broadcasts(run[..|run| - 1]) + if l.Accept? then [l.m] else []
  }

  /** How many messages had been accepted when the hub first consumed a label `mark`. */
  function MarkedAt(run: seq<Label>, mark: Label): Option<nat> {
    if run == [] then None
    else
      var prefix := run[..|run| - 1];
      if MarkedAt(prefix, mark).Some? then MarkedAt(prefix, mark)
      else if run[|run| - 1] == mark then Some(|Broadcasts(prefix)|)
      else None
  }

  function JoinedAt(run: seq<Label>, c: ClientId): Option<nat> { MarkedAt(run, Register(c)) }

  function LeftAt(run: seq<Label>, c: ClientId): Option<nat> { MarkedAt(run, Unregister(c)) }

  /** Broadcasts before the one at this index were sent while c was no longer registered. */
  function WindowEnd(run: seq<Label>, c: ClientId): nat {
    if LeftAt(run, c).Some? then LeftAt(run, c).value else |Broadcasts(run)|
  }

  /** 1 when the broadcast under way has still to reach c, else 0. */
  function Pending(s: State, c: ClientId): nat {
    match s.hub
    case Selecting => 0
    case Ranging(_, remaining) => if c in remaining then 1 else 0
    case Assigned(_, current, remaining) => if c == current || c in remaining then 1 else 0
  }

  // ---- the invariant ----

  ghost predicate HubFollows(run: seq<Label>, s: State) {
    var log := Broadcasts(run);
    && (s.hub != Selecting ==> |log| > 0 && log[|log| - 1] == s.hub.msg)
    && (s.hub.Assigned? ==>
          && s.hub.current !in s.hub.remaining
          && s.hub.current in s.clients
          && s.hub.current in s.conns
          && s.conns[s.hub.current].send == Some(s.hub.msg))
  }

  ghost predicate ClientFollows(run: seq<Label>, s: State, c: ClientId) {
    var log := Broadcasts(run);
    match (JoinedAt(run, c), LeftAt(run, c))
    case (None, None) =>
      && c !in s.clients && Pending(s, c) == 0
      && (c in s.conns ==> s.conns[c].pc == AtRegister && s.conns[c].attempted == [])
    case (Some(a), None) =>
      && c in s.clients && c in s.conns
      && s.conns[c].pc in {BeforeRead, Reading, AtUnregister}
      && a + Pending(s, c) <= |log|
      && s.conns[c].attempted == log[a..|log| - Pending(s, c)]
    case (Some(a), Some(b)) =>
      && c !in s.clients && c in s.conns && Pending(s, c) == 0
      && s.conns[c].pc in {Closing, Closed}
      && a <= b <= |log|
      && s.conns[c].attempted == log[a..b]
    case (None, Some(_)) => false
  }

  lemma {:induction false} LogSnoc(run: seq<Label>, l: Label)
    ensures Broadcasts(run + [l]) == Broadcasts(run) + if l.Accept? then [l.m] else []
  {
    assert (run + [l])[..|run|] == run;
  }

  lemma {:induction false} MarkSnoc(run: seq<Label>, l: Label, mark: Label)
    ensures MarkedAt(run + [l], mark) ==
            if MarkedAt(run, mark).Some? then MarkedAt(run, mark)
            else if l == mark then Some(|Broadcasts(run)|) else None
  {
    assert (run + [l])[..|run|] == run;
  }

  lemma WindowSnoc(run: seq<Label>, l: Label, c: ClientId)
    requires l != Register(c) && l != Unregister(c)
    ensures JoinedAt(run + [l], c) == JoinedAt(run, c) && LeftAt(run + [l], c) == LeftAt(run, c)
  {
    MarkSnoc(run, l, Register(c));
    MarkSnoc(run, l, Unregister(c));
  }

  lemma HubFollowsStep(run: seq<Label>, s: State, l: Label)
    requires Enabled(s, l) && HubFollows(run, s)
    requires l.Pick? ==> l.c in s.clients
    ensures HubFollows(run + [l], Step(s, l))
  {
    LogSnoc(run, l);
  }

  /** The client's own register or unregister is consumed. */
  lemma ClientFollowsMark(run: seq<Label>, s: State, l: Label, c: ClientId)
    requires Enabled(s, l) && ClientFollows(run, s, c)
    requires l == Register(c) || l == Unregister(c)
    ensures ClientFollows(run + [l], Step(s, l), c)
  {
    LogSnoc(run, l);
    MarkSnoc(run, l, Register(c));
    MarkSnoc(run, l, Unregister(c));
    assert Broadcasts(run + [l]) == Broadcasts(run);
  }

  /** What a step of a serving goroutine or a sender can do to one client it neither registers nor unregisters. */
  lemma OwnStepFrame(s: State, l: Label, c: ClientId)
    requires Enabled(s, l)
    requires !(l.Accept? || RangeStep(l)) && l != Register(c) && l != Unregister(c)
    ensures var s' := Step(s, l);
            && (c in s'.clients <==> c in s.clients) && Pending(s', c) == Pending(s, c)
            && (c in s.conns ==> c in s'.conns && s'.conns[c].attempted == s.conns[c].attempted)
            && (c in s.conns ==>
                  (s.conns[c].pc, s'.conns[c].pc) in {(BeforeRead, Reading), (Reading, AtUnregister), (Closing, Closed)}
                  || s'.conns[c].pc == s.conns[c].pc)
            && (c !in s.conns && c in s'.conns ==> s'.conns[c] == Client(AtRegister, None, []))
  {
  }

  /** Other steps of the serving goroutines and of the senders: the broadcast sequence stays. */
  lemma ClientFollowsOwnStep(run: seq<Label>, s: State, l: Label, c: ClientId)
    requires Enabled(s, l) && ClientFollows(run, s, c)
    requires !(l.Accept? || RangeStep(l)) && l != Register(c) && l != Unregister(c)
    ensures ClientFollows(run + [l], Step(s, l), c)
  {
    LogSnoc(run, l);
    WindowSnoc(run, l, c);
    assert Broadcasts(run + [l]) == Broadcasts(run);
    OwnStepFrame(s, l, c);
  }

  lemma ClientFollowsAccept(run: seq<Label>, s: State, l: Label, c: ClientId)
    requires Enabled(s, l) && ClientFollows(run, s, c)
    requires l.Accept?
    ensures ClientFollows(run + [l], Step(s, l), c)
  {
    LogSnoc(run, l);
    WindowSnoc(run, l, c);
    var log, log' := Broadcasts(run), Broadcasts(run + [l]);
    assert log' == log + [l.m];
    if JoinedAt(run, c).Some? {
      var a := JoinedAt(run, c).value;
      var b := if LeftAt(run, c).Some? then LeftAt(run, c).value else |log|;
      assert log'[a..b] == log[a..b];
    }
  }

  /** What a hub step inside a broadcast does to one client. */
  lemma RangeStepFrame(s: State, l: Label, c: ClientId)
    requires Enabled(s, l) && RangeStep(l)
    requires s.hub.Assigned? ==>
               s.hub.current !in s.hub.remaining && s.hub.current in s.conns
               && s.conns[s.hub.current].send == Some(s.hub.msg)
    ensures var s' := Step(s, l);
            && s'.clients == s.clients && (c in s'.conns <==> c in s.conns)
            && (c in s.conns ==> s'.conns[c].pc == s.conns[c].pc)
            && if l.WriteCurrent? && c == s.hub.current
               then Pending(s, c) == 1 && Pending(s', c) == 0
                    && s'.conns[c].attempted == s.conns[c].attempted + [s.hub.msg]
               else Pending(s', c) == Pending(s, c)
                    && (c in s.conns ==> s'.conns[c].attempted == s.conns[c].attempted)
  {
  }

  lemma ClientFollowsRangeStep(run: seq<Label>, s: State, l: Label, c: ClientId)
    requires Enabled(s, l) && HubFollows(run, s) && ClientFollows(run, s, c)
    requires RangeStep(l)
    ensures ClientFollows(run + [l], Step(s, l), c)
  {
    LogSnoc(run, l);
    WindowSnoc(run, l, c);
    RangeStepFrame(s, l, c);
    var log := Broadcasts(run);
    assert Broadcasts(run + [l]) == log;
    if l.WriteCurrent? && c == s.hub.current {
      var a := JoinedAt(run, c).value;
      assert log[a..|log|] == log[a..|log| - 1] + [s.hub.msg];
    }
  }

  lemma {:induction false} RunFollows(run: seq<Label>, c: ClientId)
    requires Exec(run).Some?
    ensures HubFollows(run, Exec(run).value)
    ensures ClientFollows(run, Exec(run).value, c)
  {
    if run != [] {
      var prefix, l := run[..|run| - 1], run[|run| - 1];
      assert run == prefix + [l];
      var s := Exec(prefix).value;
      RunFollows(prefix, c);
      if l.Pick? { RunFollows(prefix, l.c); }
      HubFollowsStep(prefix, s, l);
      if l.Accept? {
        ClientFollowsAccept(prefix, s, l, c);
      } else if l == Register(c) || l == Unregister(c) {
        ClientFollowsMark(prefix, s, l, c);
      } else if RangeStep(l) {
        ClientFollowsRangeStep(prefix, s, l, c);
      } else {
        ClientFollowsOwnStep(prefix, s, l, c);
      }
    }
  }

  // ---- main results ----

  /**
   In every run, what the hub has tried to write to a client is the contiguous slice of the
   global broadcast sequence from the point where the client's register was consumed to the point
   where its unregister was consumed, less the one message still under way to it.
   */
  lemma {:induction false} DeliveryIsContiguousSlice(run: seq<Label>, c: ClientId)
    requires Exec(run).Some? && c in Exec(run).value.conns
    ensures var s, log := Exec(run).value, Broadcasts(run);
            if JoinedAt(run, c).None? then s.conns[c].attempted == []
            else
              var a, b := JoinedAt(run, c).value, WindowEnd(run, c);
              && a + Pending(s, c) <= b <= |log|
              && s.conns[c].attempted == log[a..b - Pending(s, c)]
  {
    RunFollows(run, c);
  }

  /** Two clients see the same message at every position of the broadcast sequence both were sent. */
  lemma {:induction false} OverlappingClientsAgree(run: seq<Label>, c: ClientId, d: ClientId, i: nat)
    requires Exec(run).Some?
    requires JoinedAt(run, c).Some? && JoinedAt(run, d).Some?
    requires JoinedAt(run, c).value <= i < WindowEnd(run, c) - Pending(Exec(run).value, c)
    requires JoinedAt(run, d).value <= i < WindowEnd(run, d) - Pending(Exec(run).value, d)
    ensures var s := Exec(run).value;
            && c in s.conns && d in s.conns
            && var ic, id := i - JoinedAt(run, c).value, i - JoinedAt(run, d).value;
            && ic < |s.conns[c].attempted| && id < |s.conns[d].attempted| && i < |Broadcasts(run)|
            && s.conns[c].attempted[ic] == s.conns[d].attempted[id] == Broadcasts(run)[i]
  {
    RunFollows(run, c);
    RunFollows(run, d);
  }

  /** The hub only ever writes to a socket whose unregister it has not consumed, hence never to a closed one. */
  lemma {:induction false} WritesReachOpenSockets(run: seq<Label>)
    requires Exec(run + [WriteCurrent]).Some?
    ensures Exec(run).Some?
    ensures var s := Exec(run).value;
            && s.hub.Assigned? && s.hub.current in s.conns
            && s.conns[s.hub.current].pc in {BeforeRead, Reading, AtUnregister}
            && s.conns[s.hub.current].send == Some(s.hub.msg)
  {
    ExecSnoc(run, WriteCurrent);
    RunFollows(run, Exec(run).value.hub.current);
  }

  lemma {:induction false} MarksPersist(run: seq<Label>, tail: seq<Label>, mark: Label)
    ensures Broadcasts(run) <= Broadcasts(run + tail)
    ensures MarkedAt(run, mark).Some? ==> MarkedAt(run + tail, mark) == MarkedAt(run, mark)
  {
    if tail == [] {
      assert run + tail == run;
    } else {
      var k := |tail| - 1;
      MarksPersist(run, tail[..k], mark);
      assert run + tail == run + tail[..k] + [tail[k]];
      LogSnoc(run + tail[..k], tail[k]);
      MarkSnoc(run + tail[..k], tail[k], mark);
    }
  }

  lemma {:induction false} PrefixRuns(run: seq<Label>, tail: seq<Label>)
    requires Exec(run + tail).Some?
    ensures Exec(run).Some?
  {
    if tail == [] {
      assert run + tail == run;
    } else {
      var k := |tail| - 1;
      assert run + tail == run + tail[..k] + [tail[k]];
      ExecSnoc(run + tail[..k], tail[k]);
      PrefixRuns(run, tail[..k]);
    }
  }

  /** After its unregister is consumed nothing is ever written to a client again. */
  lemma {:induction false} NothingAfterUnregister(run: seq<Label>, tail: seq<Label>, c: ClientId)
    requires Exec(run + tail).Some? && LeftAt(run, c).Some?
    ensures Exec(run).Some?
    ensures c in Exec(run).value.conns && c in Exec(run + tail).value.conns
    ensures Exec(run + tail).value.conns[c].attempted == Exec(run).value.conns[c].attempted
  {
    PrefixRuns(run, tail);
    RunFollows(run, c);
    RunFollows(run + tail, c);
    MarksPersist(run, tail, Register(c));
    MarksPersist(run, tail, Unregister(c));
  }

  // ---- progress ----

  /** Hub steps left in the broadcast under way. */
  function HubWork(s: State): nat {
    match s.hub
    case Selecting => 0
    case Ranging(_, remaining) => 1 + 2 * |remaining|
    case Assigned(_, _, remaining) => 2 + 2 * |remaining|
  }

  /** While a broadcast is under way every step keeps or shortens it: no other step can lengthen or abort it. */
  lemma BroadcastOnlyShrinks(s: State, l: Label)
    requires Enabled(s, l) && s.hub != Selecting
    ensures HubWork(Step(s, l)) == HubWork(s) - if RangeStep(l) then 1 else 0
  {
  }

  /** Inside a broadcast the hub always has a step, and no other goroutine moves with it. */
  lemma HubCanStep(run: seq<Label>) returns (l: Label)
    requires Exec(run).Some? && Exec(run).value.hub != Selecting
    ensures RangeStep(l) && Exec(run + [l]).Some?
    ensures var s, s' := Exec(run).value, Exec(run + [l]).value;
            && HubWork(s') == HubWork(s) - 1 && s'.blocked == s.blocked
            && forall c, pc :: IsAt(s, c, pc) ==> IsAt(s', c, pc)
  {
    var s := Exec(run).value;
    if s.hub.Assigned? {
      RunFollows(run, s.hub.current);
      l := WriteCurrent;
    } else if s.hub.remaining == {} {
      l := EndRange;
    } else {
      var c :| c in s.hub.remaining;
      RunFollows(run, c);
      l := Pick(c);
    }
    ExecSnoc(run, l);
    BroadcastOnlyShrinks(s, l);
  }

  /** From any reachable state the hub, on its own, completes the broadcast under way. */
  lemma {:induction false} HubReturnsToSelect(run: seq<Label>) returns (tail: seq<Label>)
    requires Exec(run).Some?
    ensures Exec(run + tail).Some? && Exec(run + tail).value.hub == Selecting
    ensures |tail| == HubWork(Exec(run).value)
    ensures forall i :: 0 <= i < |tail| ==> RangeStep(tail[i])
    ensures Exec(run + tail).value.blocked == Exec(run).value.blocked
    ensures forall c, pc :: IsAt(Exec(run).value, c, pc) ==> IsAt(Exec(run + tail).value, c, pc)
    decreases HubWork(Exec(run).value)
  {
    if Exec(run).value.hub == Selecting {
      tail := [];
      assert run + tail == run;
    } else {
      var l := HubCanStep(run);
      var rest := HubReturnsToSelect(run + [l]);
      tail := [l] + rest;
      assert run + tail == run + [l] + rest;
    }
  }

  /** A goroutine blocked on one of the hub's channels can always be served after hub steps alone. */
  lemma BlockedSendIsServed(run: seq<Label>, l: Label) returns (tail: seq<Label>)
    requires Exec(run).Some?
    requires var s := Exec(run).value;
             || (l.Accept? && l.p in s.blocked && s.blocked[l.p] == l.m)
             || (l.Register? && IsAt(s, l.c, AtRegister))
             || (l.Unregister? && IsAt(s, l.c, AtUnregister))
    ensures Exec(run + tail + [l]).Some?
    ensures forall i :: 0 <= i < |tail| ==> RangeStep(tail[i])
  {
    tail := HubReturnsToSelect(run);
    ExecSnoc(run + tail, l);
  }

  // ---- senders ----

  function Offered(run: seq<Label>, p: SenderId): seq<Payload> {
    if run == [] then []
    else
      var l := run[|run| - 1];
      Offered(run[..|run| - 1], p) + if l.Offer? && l.p == p then [l.m] else []
  }

  function AcceptedFrom(run: seq<Label>, p: SenderId): seq<Payload> {
    if run == [] then []
    else
      var l := run[|run| - 1];
      AcceptedFrom(run[..|run| - 1], p) + if l.Accept? && l.p == p then [l.m] else []
  }

  /** The hub accepts exactly what each sender offers, in that sender's order, less the one it is blocked on. */
  lemma {:induction false} SenderOrderIsKept(run: seq<Label>, p: SenderId)
    requires Exec(run).Some?
    ensures var s := Exec(run).value;
            Offered(run, p) == AcceptedFrom(run, p) + if p in s.blocked then [s.blocked[p]] else []
  {
    if run != [] {
      SenderOrderIsKept(run[..|run| - 1], p);
    }
  }

  ghost predicate OnlySender(run: seq<Label>, p: SenderId) {
    forall i :: 0 <= i < |run| && run[i].Offer? ==> run[i].p == p
  }

  /** With a single sender the global broadcast sequence is a prefix of what it offered, at most one message short. */
  lemma {:induction false} SingleSenderOwnsTheLog(run: seq<Label>, p: SenderId)
    requires Exec(run).Some? && OnlySender(run, p)
    ensures Exec(run).value.blocked.Keys <= {p}
    ensures Broadcasts(run) == AcceptedFrom(run, p)
    ensures Broadcasts(run) <= Offered(run, p)
    ensures |Offered(run, p)| == |Broadcasts(run)| + if p in Exec(run).value.blocked then 1 else 0
  {
    SenderOrderIsKept(run, p);
    if run != [] {
      var k := |run| - 1;
      assert OnlySender(run[..k], p) by {
        forall i | 0 <= i < k && run[..k][i].Offer? ensures run[..k][i].p == p {
          assert run[..k][i] == run[i];
        }
      }
      SingleSenderOwnsTheLog(run[..k], p);
    }
  }

  // ---- the life of a client ----

  /** The steps of the goroutines serving one connection, in program order. Reading a message is left out:
      it may happen any number of times while the reader runs. */
  function LifeSteps(c: ClientId): seq<Label> {
    [Connect(c), Register(c), StartReader(c), ReadError(c), Unregister(c), CloseSocket(c)]
  }

  /** Those of the run's labels that are such steps of c. */
  function OwnSteps(run: seq<Label>, c: ClientId): seq<Label> {
    if run == [] then []
    else OwnSteps(run[..|run| - 1], c) + if run[|run| - 1] in LifeSteps(c) then [run[|run| - 1]] else []
  }

  /** How many of them a client has behind it. */
  function LifeStage(s: State, c: ClientId): nat {
    if c !in s.conns then 0
    else
      match s.conns[c].pc
      case AtRegister => 1
      case BeforeRead => 2
      case Reading => 3
      case AtUnregister => 4
      case Closing => 5
      case Closed => 6
  }

  /** What one step does to a client's stage. */
  lemma StageStep(s: State, l: Label, c: ClientId)
    requires Enabled(s, l)
    ensures LifeStage(s, c) <= 6 && LifeStage(Step(s, l), c) <= 6
    ensures if l in LifeSteps(c)
            then
              && LifeStage(s, c) < 6 && l == LifeSteps(c)[LifeStage(s, c)]
              && LifeStage(Step(s, l), c) == LifeStage(s, c) + 1
            else LifeStage(Step(s, l), c) == LifeStage(s, c)
  {
    var steps := LifeSteps(c);
    assert l in steps <==> l == Connect(c) || l == Register(c) || l == StartReader(c) || l == ReadError(c)
                           || l == Unregister(c) || l == CloseSocket(c);
  }

  /**
   In every run each connection goes through its steps once, in program order: register is consumed before
   the reader starts, unregister once, after the read error and before the socket is closed. Messages are
   read only between the reader's start and its read error.
   */
  lemma {:induction false} LifeInOrder(run: seq<Label>, c: ClientId)
    requires Exec(run).Some?
    ensures LifeStage(Exec(run).value, c) <= 6
    ensures OwnSteps(run, c) == LifeSteps(c)[..LifeStage(Exec(run).value, c)]
    ensures run != [] && run[|run| - 1] == ReadMessage(c) ==> OwnSteps(run, c) == LifeSteps(c)[..3]
  {
    if run != [] {
      var prefix, l := run[..|run| - 1], run[|run| - 1];
      LifeInOrder(prefix, c);
      StageStep(Exec(prefix).value, l, c);
    }
  }

  /** While its reader runs a client can be read from at any moment, which changes nothing. */
  lemma {:induction false} MessagesCanBeRead(run: seq<Label>, c: ClientId)
    requires Exec(run).Some? && IsAt(Exec(run).value, c, Reading)
    ensures Exec(run + [ReadMessage(c)]) == Exec(run)
  {
    ExecSnoc(run, ReadMessage(c));
  }

  lemma StageKept(s: State, s': State, c: ClientId)
    requires c in s.conns ==> IsAt(s', c, s.conns[c].pc)
    requires c !in s.conns ==> s' == s
    ensures LifeStage(s', c) == LifeStage(s, c)
  {
  }

  /** A step of c's own, taken after hub steps alone when it is a send to the hub. */
  lemma {:induction false} LifeAdvances(run: seq<Label>, c: ClientId) returns (tail: seq<Label>)
    requires Exec(run).Some? && LifeStage(Exec(run).value, c) < 6
    ensures Exec(run + tail).Some? && LifeStage(Exec(run + tail).value, c) == LifeStage(Exec(run).value, c) + 1
    ensures forall i :: 0 <= i < |tail| ==> RangeStep(tail[i]) || tail[i] in LifeSteps(c)
  {
    var s := Exec(run).value;
    var l := LifeSteps(c)[LifeStage(s, c)];
    var wait := [];
    assert run + wait == run;
    if l.Register? || l.Unregister? {
      wait := HubReturnsToSelect(run);
      assert IsAt(s, c, s.conns[c].pc);
    }
    StageKept(s, Exec(run + wait).value, c);
    tail := wait + [l];
    assert run + tail == run + wait + [l];
    ExecSnoc(run + wait, l);
    StageStep(Exec(run + wait).value, l, c);
  }

  /** From any reachable state a connection, begun or not, can run its course with the hub's help alone: it is
      registered, reads, unregisters and is closed. */
  lemma {:induction false} LifeCanComplete(run: seq<Label>, c: ClientId) returns (tail: seq<Label>)
    requires Exec(run).Some?
    ensures Exec(run + tail).Some?
    ensures IsAt(Exec(run + tail).value, c, Closed) && c !in Exec(run + tail).value.clients
    ensures JoinedAt(run + tail, c).Some? && LeftAt(run + tail, c).Some?
    ensures forall i :: 0 <= i < |tail| ==> RangeStep(tail[i]) || tail[i] in LifeSteps(c)
    decreases 6 - LifeStage(Exec(run).value, c)
  {
    RunFollows(run, c);
    if LifeStage(Exec(run).value, c) == 6 {
      tail := [];
      assert run + tail == run;
    } else {
      var first := LifeAdvances(run, c);
      var rest := LifeCanComplete(run + first, c);
      tail := first + rest;
      assert run + tail == run + first + rest;
    }
  }

  // ---- the hub's own order ----

  function RangesEnded(run: seq<Label>): nat {
    if run == [] then 0 else RangesEnded(run[..|run| - 1]) + if run[|run| - 1].EndRange? then 1 else 0
  }

  lemma {:induction false} RangesMatch(run: seq<Label>)
    requires Exec(run).Some?
    ensures |Broadcasts(run)| == RangesEnded(run) + if Exec(run).value.hub == Selecting then 0 else 1
  {
    if run != [] {
      RangesMatch(run[..|run| - 1]);
    }
  }

  /** The hub takes in one thing at a time: a register, an unregister or a message only once it has ended the
      loop over the clients for every message before. */
  lemma {:induction false} HubIsSerial(run: seq<Label>, l: Label)
    requires Exec(run + [l]).Some? && (l.Register? || l.Unregister? || l.Accept?)
    ensures |Broadcasts(run)| == RangesEnded(run)
  {
    ExecSnoc(run, l);
    RangesMatch(run);
  }

  /** Hub steps inside a broadcast change neither the registered clients nor the broadcast sequence. */
  lemma {:induction false} RangeKeeps(run: seq<Label>, tail: seq<Label>)
    requires Exec(run + tail).Some? && forall i :: 0 <= i < |tail| ==> RangeStep(tail[i])
    ensures Exec(run).Some? && Exec(run + tail).value.clients == Exec(run).value.clients
    ensures Broadcasts(run + tail) == Broadcasts(run)
  {
    if tail == [] {
      assert run + tail == run;
    } else {
      var k := |tail| - 1;
      assert run + tail == run + tail[..k] + [tail[k]];
      ExecSnoc(run + tail[..k], tail[k]);
      LogSnoc(run + tail[..k], tail[k]);
      RangeKeeps(run, tail[..k]);
    }
  }

  /** The client is connected, and m is the last message it was written. */
  ghost predicate LastWritten(run: seq<Label>, c: ClientId, m: Payload) {
    && Exec(run).Some? && c in Exec(run).value.conns
    && var log := Exec(run).value.conns[c].attempted;
    && log != [] && log[|log| - 1] == m
  }

  lemma {:induction false} LastIsWritten(run: seq<Label>, p: SenderId, m: Payload, finish: seq<Label>, c: ClientId)
    requires Exec(run).Some? && c in Exec(run).value.clients && Exec(run + [Accept(p, m)] + finish).Some?
    requires Broadcasts(run + [Accept(p, m)] + finish) == Broadcasts(run) + [m]
    requires var s := Exec(run + [Accept(p, m)] + finish).value; s.hub == Selecting && c in s.clients
    ensures LastWritten(run + [Accept(p, m)] + finish, c, m)
  {
    var after := [Accept(p, m)] + finish;
    assert run + after == run + [Accept(p, m)] + finish;
    RunFollows(run, c);
    RunFollows(run + after, c);
    MarksPersist(run, after, Register(c));
  }

  lemma {:induction false} OfferTaken(run: seq<Label>, p: SenderId, m: Payload)
    requires Exec(run).Some? && p !in Exec(run).value.blocked
    ensures var run' := run + [Offer(p, m)];
            && Exec(run').Some? && Broadcasts(run') == Broadcasts(run)
            && Exec(run').value.clients == Exec(run).value.clients
            && Exec(run').value.blocked == Exec(run).value.blocked[p := m]
  {
    ExecSnoc(run, Offer(p, m));
    LogSnoc(run, Offer(p, m));
  }

  lemma {:induction false} AcceptTaken(run: seq<Label>, p: SenderId, m: Payload)
    requires Exec(run).Some? && Exec(run).value.hub == Selecting
    requires p in Exec(run).value.blocked && Exec(run).value.blocked[p] == m
    ensures var run' := run + [Accept(p, m)];
            && Exec(run').Some? && Broadcasts(run') == Broadcasts(run) + [m]
            && Exec(run').value.clients == Exec(run).value.clients
  {
    ExecSnoc(run, Accept(p, m));
    LogSnoc(run, Accept(p, m));
  }

  /** A sender that is not blocked can offer any message, and the hub comes round to accepting it. */
  lemma {:induction false} OfferIsAccepted(run: seq<Label>, p: SenderId, m: Payload) returns (tail: seq<Label>)
    requires Exec(run).Some? && p !in Exec(run).value.blocked
    ensures Exec(run + tail).Some? && Exec(run + tail + [Accept(p, m)]).Some?
    ensures Broadcasts(run + tail) == Broadcasts(run)
    ensures Broadcasts(run + tail + [Accept(p, m)]) == Broadcasts(run) + [m]
    ensures Exec(run + tail).value.clients == Exec(run).value.clients
    ensures Exec(run + tail + [Accept(p, m)]).value.clients == Exec(run).value.clients
    ensures forall i :: 0 <= i < |tail| ==> RangeStep(tail[i]) || tail[i] == Offer(p, m)
  {
    OfferTaken(run, p, m);
    var wait := HubReturnsToSelect(run + [Offer(p, m)]);
    RangeKeeps(run + [Offer(p, m)], wait);
    tail := [Offer(p, m)] + wait;
    assert run + tail == run + [Offer(p, m)] + wait;
    AcceptTaken(run + tail, p, m);
  }

  /**
   A message reaches everyone: from any reachable state a sender that is not blocked can hand over any
   message, the hub accepts it after hub steps alone, and gets it to every client then registered: it is the
   last message each of them was written.
   */
  lemma {:induction false} MessageReachesAll(run: seq<Label>, p: SenderId, m: Payload) returns (tail: seq<Label>)
    requires Exec(run).Some? && p !in Exec(run).value.blocked
    ensures Exec(run + tail).Some? && Exec(run + tail).value.hub == Selecting
    ensures Broadcasts(run + tail) == Broadcasts(run) + [m]
    ensures forall i :: 0 <= i < |tail| ==> RangeStep(tail[i]) || tail[i] == Offer(p, m) || tail[i] == Accept(p, m)
    ensures Exec(run + tail).value.clients == Exec(run).value.clients
    ensures forall c :: c in Exec(run).value.clients ==> LastWritten(run + tail, c, m)
  {
    var first := OfferIsAccepted(run, p, m);
    var before := run + first;
    var finish := HubReturnsToSelect(before + [Accept(p, m)]);
    RangeKeeps(before + [Accept(p, m)], finish);
    tail := first + [Accept(p, m)] + finish;
    assert run + tail == before + [Accept(p, m)] + finish;
    forall c | c in Exec(run).value.clients ensures LastWritten(run + tail, c, m) {
      LastIsWritten(before, p, m, finish, c);
    }
  }
}
